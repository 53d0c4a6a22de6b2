/** The hybrid logical clock: one atomic word, read, compared-and-exchanged and raised by any number of threads. */
module HybridClocks {
  import opened CanonicalKeys

  /** What the word went through: a timestamp that was handed out, with the physical time of its call, or one that came
    * from elsewhere. */
  datatype Event = Returned(ts: nat, phys: nat) | Saw(ts: nat)

  /** The successor of `last`, or the physical time if that is later; it saturates at the top. */
  function Next(phys: nat, last: nat): nat {
    if phys > last then phys else if last < MAX64 then last + 1 else MAX64
  }

  /** A thread is idle, or about to load (with its physical time), or holds the word it loaded. */
  datatype Phase = Idle | Wants(phys: nat) | Holds(phys: nat, seen: nat)

  /** One atomic step of a thread: calling `now`, loading, the compare-exchange, or `observe`. */
  datatype Action = Call(t: nat, phys: nat) | Load(t: nat) | Swap(t: nat) | Observe(remote: nat)

  datatype System = System(last: nat, phases: map<nat, Phase>, history: seq<Event>)

  function PhaseOf(s: System, t: nat): Phase { if t in s.phases then s.phases[t] else Idle }

  predicate InRange(a: Action) {
    match a case Call(_, phys) => phys <= MAX64 case Observe(r) => r <= MAX64 case _ => true
  }

  /** Steps that a thread cannot take now leave the system alone. */
  function Step(s: System, a: Action): System {
    match a
    case Call(t, phys) => if PhaseOf(s, t).Idle? then s.(phases := s.phases[t := Wants(phys)]) else s
    case Load(t) => if PhaseOf(s, t).Wants? then s.(phases := s.phases[t := Holds(PhaseOf(s, t).phys, s.last)]) else s
    case Swap(t) =>
      (match PhaseOf(s, t)
       case Holds(phys, seen) =>
         if s.last == seen
         then System(Next(phys, seen), s.phases[t := Idle], s.history + [Returned(Next(phys, seen), phys)])
         else s.(phases := s.phases[t := Wants(phys)])
       case _ => s)
    case Observe(r) => System(if s.last < r then r else s.last, s.phases, s.history + [Saw(r)])
  }

  function Run(actions: seq<Action>): System {
    if actions == [] then System(0, map[], []) else Step(Run(actions[..|actions| - 1]), actions[|actions| - 1])
  }

  /** The greatest timestamp so far. */
  function Top(h: seq<Event>): nat {
    if h == [] then 0 else
      var t := Top(h[..|h| - 1]);
      if h[|h| - 1].ts > t then h[|h| - 1].ts else t
  }

  /** A timestamp handed out is the physical time of its call if that is later than everything before, and otherwise one
    * more than the greatest timestamp before it, up to the end of the range. */
  ghost predicate Paced(h: seq<Event>, j: nat)
    requires j < |h|
  {
    && h[j].ts <= MAX64
    && (h[j].Returned? ==>
          var before := Top(h[..j]);
          h[j].ts == if h[j].phys > before then h[j].phys else if before < MAX64 then before + 1 else MAX64)
  }

  /** A timestamp handed out exceeds everything before it, unless the clock is at its end. */
  ghost predicate Later(h: seq<Event>, i: nat, j: nat)
    requires i < |h| && j < |h|
  {
    h[j].Returned? ==> h[i].ts < h[j].ts || h[j].ts == MAX64
  }

  /** The word is the greatest timestamp so far. */
  ghost predicate HistoryOk(last: nat, h: seq<Event>) {
    last == Top(h) <= MAX64 && forall j | 0 <= j < |h| :: Paced(h, j)
  }

  lemma {:induction false} TopBounds(h: seq<Event>, i: nat)
    requires i < |h|
    ensures h[i].ts <= Top(h)
  {
    if i < |h| - 1 { TopBounds(h[..|h| - 1], i); }
  }

  lemma {:induction false} TopGrows(h: seq<Event>, i: nat)
    requires i <= |h|
    ensures Top(h[..i]) <= Top(h)
  {
    if i < |h| {
      TopGrows(h[..|h| - 1], i);
      assert h[..|h| - 1][..i] == h[..i];
    } else {
      assert h[..i] == h;
    }
  }

  lemma PacedLater(last: nat, h: seq<Event>, i: nat, j: nat)
    requires HistoryOk(last, h) && i < j < |h|
    ensures Later(h, i, j)
  {
    assert Paced(h, j) && h[..j][i] == h[i];
    TopBounds(h[..j], i);
  }

  lemma HistoryMore(last: nat, h: seq<Event>, e: Event)
    requires HistoryOk(last, h) && e.ts <= MAX64
    requires e.Returned? ==> e.ts == if e.phys > last then e.phys else if last < MAX64 then last + 1 else MAX64
    ensures HistoryOk(if last < e.ts then e.ts else last, h + [e])
  {
    var more := h + [e];
    assert more[..|h|] == h;
    forall j | 0 <= j < |more|
      ensures Paced(more, j)
    {
      if j < |h| { assert Paced(h, j) && more[..j] == h[..j]; }
    }
  }

  /** The latest time that came in from outside: a physical time of a call, or an observed timestamp. */
  function Latest(h: seq<Event>): nat {
    if h == [] then 0 else
      var t, e := Latest(h[..|h| - 1]), h[|h| - 1];
      var came := match e case Returned(_, phys) => phys case Saw(ts) => ts;
      if came > t then came else t
  }

  /** The clock runs ahead of the times that came in by at most one per timestamp handed out: it reaches its end only if
    * one of them was there, or after counting up to it. */
  lemma {:induction false} Drift(last: nat, h: seq<Event>)
    requires HistoryOk(last, h)
    ensures last <= Latest(h) + |h|
  {
    if h != [] {
      var n := |h| - 1;
      assert Paced(h, n);
      forall j | 0 <= j < n
        ensures Paced(h[..n], j)
      {
        assert Paced(h, j) && h[..n][..j] == h[..j];
      }
      TopGrows(h, n);
      Drift(Top(h[..n]), h[..n]);
    }
  }

  lemma StepKeeps(s: System, a: Action)
    requires HistoryOk(s.last, s.history) && InRange(a) && forall t :: PhaseOk(PhaseOf(s, t), s.last)
    ensures HistoryOk(Step(s, a).last, Step(s, a).history) && s.last <= Step(s, a).last
    ensures forall t :: PhaseOk(PhaseOf(Step(s, a), t), Step(s, a).last)
  {
    hide HistoryOk;
    WordBound(s.last, s.history);
    match a {
      case Swap(t) =>
        assert PhaseOk(PhaseOf(s, t), s.last);
        if PhaseOf(s, t).Holds? && s.last == PhaseOf(s, t).seen { HistoryMore(s.last, s.history, Returned(Next(PhaseOf(s, t).phys, s.last), PhaseOf(s, t).phys)); }
      case Observe(r) => HistoryMore(s.last, s.history, Saw(r));
      case _ =>
    }
    forall t
      ensures PhaseOk(PhaseOf(Step(s, a), t), Step(s, a).last)
    {
      assert PhaseOk(PhaseOf(s, t), s.last);
    }
  }

  lemma WordBound(last: nat, h: seq<Event>)
    requires HistoryOk(last, h)
    ensures last <= MAX64
  {
  }

  /** What a thread holds is not ahead of the word. */
  ghost predicate PhaseOk(p: Phase, last: nat) {
    match p case Idle => true case Wants(phys) => phys <= MAX64 case Holds(phys, seen) => phys <= MAX64 && seen <= last
  }

  /** In every interleaving of any number of threads, in the order of the exchanges: each timestamp handed out is the
    * physical time of its call or one more than the greatest timestamp before it; so timestamps strictly increase and
    * exceed every value observed before, until the clock saturates, and the clock saturates only if a time that came in
    * was at the end of the range, or by counting up to it. */
  lemma {:induction false} EveryRun(actions: seq<Action>)
    requires forall i | 0 <= i < |actions| :: InRange(actions[i])
    ensures var s := Run(actions);
            && HistoryOk(s.last, s.history) && (forall t :: PhaseOk(PhaseOf(s, t), s.last))
            && (forall i, j | 0 <= i < j < |s.history| :: Later(s.history, i, j)) && s.last <= Latest(s.history) + |s.history|
  {
    hide Step, HistoryOk;
    if actions == [] {
      NothingYet();
    } else {
      var n := |actions| - 1;
      EveryRun(actions[..n]);
      StepKeeps(Run(actions[..n]), actions[n]);
    }
    var s := Run(actions);
    Drift(s.last, s.history);
    forall i, j | 0 <= i < j < |s.history|
      ensures Later(s.history, i, j)
    {
      PacedLater(s.last, s.history, i, j);
    }
  }

  lemma NothingYet()
    ensures HistoryOk(0, [])
  {
  }

  /** A failed exchange means that the word has grown since it was loaded: some other thread got ahead. */
  lemma FailedSwap(actions: seq<Action>, t: nat)
    requires forall i | 0 <= i < |actions| :: InRange(actions[i])
    requires PhaseOf(Run(actions), t).Holds? && PhaseOf(Run(actions), t).seen != Run(actions).last
    ensures PhaseOf(Run(actions), t).seen < Run(actions).last
  {
    EveryRun(actions);
    assert PhaseOk(PhaseOf(Run(actions), t), Run(actions).last);
  }

  lemma RunMore(actions: seq<Action>, a: Action)
    ensures Run(actions + [a]) == Step(Run(actions), a)
  {
    assert (actions + [a])[..|actions|] == actions;
  }

  /** Whatever happened before, a thread that is idle and then calls, loads and exchanges without another thread in
    * between hands out a timestamp; an observed one enters the history at once. */
  lemma Undisturbed(actions: seq<Action>, t: nat, phys: nat, remote: nat)
    requires PhaseOf(Run(actions), t).Idle?
    ensures var before, after := Run(actions), Run(actions + [Call(t, phys)] + [Load(t)] + [Swap(t)]);
            && PhaseOf(after, t).Idle? && after.history == before.history + [Returned(after.last, phys)]
            && after.last == if phys > before.last then phys else if before.last < 0xFFFF_FFFF_FFFF_FFFF then before.last + 1 else 0xFFFF_FFFF_FFFF_FFFF
    ensures Run(actions + [Observe(remote)]).history == Run(actions).history + [Saw(remote)]
  {
    RunMore(actions, Call(t, phys));
    RunMore(actions + [Call(t, phys)], Load(t));
    RunMore(actions + [Call(t, phys)] + [Load(t)], Swap(t));
    RunMore(actions, Observe(remote));
    hide Run;
  }

  /** An exchange that fails sends its thread back to load again, and changes nothing else. */
  lemma TriesAgain(actions: seq<Action>, t: nat)
    requires PhaseOf(Run(actions), t).Holds? && PhaseOf(Run(actions), t).seen != Run(actions).last
    ensures var before, after := Run(actions), Run(actions + [Swap(t)]);
            && PhaseOf(after, t) == Wants(PhaseOf(before, t).phys) && after.last == before.last && after.history == before.history
  {
    RunMore(actions, Swap(t));
    hide Run;
  }

  /** What other threads do to the word between a load and the exchange. */
  datatype Effect = Ticks(phys: nat) | Raises(remote: nat)

  predicate EffectsOk(es: seq<Effect>) { forall e | e in es :: (match e case Ticks(p) => p <= MAX64 case Raises(r) => r <= MAX64) }

  class Hlc {
    var last: nat
    ghost var history: seq<Event>

    ghost predicate Valid()
      reads this
    {
      HistoryOk(last, history)
    }

    constructor ()
      ensures Valid() && last == 0 && history == []
    {
      last, history := 0, [];
    }

    /** The exchange that ends a call with physical time `phys`. */
    method CompareExchange(expected: nat, next: nat, ghost phys: nat) returns (ok: bool)
      requires Valid() && next <= MAX64
      requires next == if phys > expected then phys else if expected < MAX64 then expected + 1 else MAX64
      modifies this
      ensures Valid() && ok == (old(last) == expected)
      ensures last == (if ok then next else old(last)) && history == old(history) + if ok then [Returned(next, phys)] else []
    {
      ok := last == expected;
      if ok {
        HistoryMore(last, history, Returned(next, phys));
        history := history + [Returned(next, phys)];
        last := next;
      }
    }

    /** Merges a timestamp from elsewhere: the word becomes the greater of the two. */
    method ObserveRemote(remote: nat)
      requires Valid() && remote <= MAX64
      modifies this
      ensures Valid() && history == old(history) + [Saw(remote)] && last == if old(last) < remote then remote else old(last)
    {
      HistoryMore(last, history, Saw(remote));
      history := history + [Saw(remote)];
      if last < remote { last := remote; }
    }

    method Meanwhile(es: seq<Effect>)
      requires Valid() && EffectsOk(es)
      modifies this
      ensures Valid() && old(last) <= last && old(history) <= history && (es == [] ==> history == old(history))
      ensures HeldSince(old(last), |old(history)|, last)
    {
      var i := 0;
      while i < |es|
        invariant 0 <= i <= |es| && Valid() && old(last) <= last && old(history) <= history && (i == 0 ==> history == old(history))
        invariant HeldSince(old(last), |old(history)|, last)
      {
        assert es[i] in es;
        match es[i] {
          case Ticks(phys) =>
            WordBound(last, history);
            var ok := CompareExchange(last, Next(phys, last), phys);
            assert history[|history| - 1].ts == last;
          case Raises(remote) =>
            ghost var before := history;
            ObserveRemote(remote);
            assert history[|history| - 1].ts == remote;
        }
        i := i + 1;
      }
    }

    /** The word was `w` at some time since it was `start` and the history had `n` events. */
    ghost predicate HeldSince(start: nat, n: nat, w: nat)
      reads `history
    {
      w == start || exists i :: n <= i < |history| && history[i].ts == w
    }

    /** The retry loop. Whatever other threads do in between, the result exceeds everything that came before it, and
      * the loop ends: each failure means that the word has grown. The result is the physical time, or one more than a
      * value that the word held during the call; if no other thread does anything, the physical time if it is later
      * than the word, and otherwise one more than the word. */
    method Now(phys: nat, others: seq<seq<Effect>>) returns (ts: nat)
      requires Valid() && phys <= MAX64 && forall k | 0 <= k < |others| :: EffectsOk(others[k])
      modifies this
      ensures Valid() && old(history) <= history && history[|old(history)|..] != []
      ensures history[|history| - 1] == Returned(ts, phys) && last == ts && (old(last) < ts || ts == MAX64) && (phys <= ts)
      ensures ts == phys || exists w: nat :: HeldSince(old(last), |old(history)|, w) && ts == if w < MAX64 then w + 1 else MAX64
      ensures (forall k | 0 <= k < |others| :: others[k] == []) ==>
                ts == if phys > old(last) then phys else if old(last) < MAX64 then old(last) + 1 else MAX64
    {
      hide HistoryOk;
      var tries := 0;
      ghost var start, h := last, history;
      while true
        invariant Valid() && start <= last && h <= history && tries >= 0 && HeldSince(start, |h|, last)
        invariant (forall k | 0 <= k < |others| :: others[k] == []) ==> last == start
        decreases MAX64 - last
      {
        WordBound(last, history);
        var seen := last;
        ghost var at: nat := if seen == start then 0 else var i: nat :| |h| <= i < |history| && history[i].ts == seen; i;
        if tries < |others| { Meanwhile(others[tries]); }
        assert seen == start || history[at].ts == seen;
        WordBound(last, history);
        assert HeldSince(start, |h|, last);
        ghost var mid := history;
        var next := Next(phys, seen);
        var ok := CompareExchange(seen, next, phys);
        if ok {
          assert seen == start || history[at] == mid[at];
          assert HeldSince(start, |h|, seen);
          return next;
        }
        assert history == mid;
        tries := tries + 1;
      }
    }
  }
}
