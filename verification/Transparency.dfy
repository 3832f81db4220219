/**
 Eviction timing over whole runs: two runs of the same commands at the same clock
 readings, with any active cycles in between, cannot be told apart.
 */
module Transparency {
  import opened Keyspace
  import opened Commands
  import opened Laws
  import opened Execution
  import opened Recovery

  function Later(a: int, b: int): int {
    if a < b then b else a
  }

  /** Clock readings never step back. */
  predicate Monotone(t: int, es: seq<Event>)
    decreases |es|
  {
    es == [] || (t <= es[0].now && Monotone(es[0].now, es[1..]))
  }

  /** The same commands at the same times; active cycles are free. */
  predicate SameCommands(es: seq<Event>, fs: seq<Event>)
    decreases |es| + |fs|
  {
    if es != [] && es[0].Cycle? then SameCommands(es[1..], fs)
    else if fs != [] && fs[0].Cycle? then SameCommands(es, fs[1..])
    else if es == [] || fs == [] then es == fs
    else es[0].now == fs[0].now && es[0].cmd == fs[0].cmd && SameCommands(es[1..], fs[1..])
  }

  /** One command gets the same reply in both states; DBSIZE may differ, KEYS may be reordered. */
  ghost predicate SameAnswer(a: Store, e: Event, b: Store, f: Event)
    requires WellFormed(a) && WellFormed(b) && e.Exec? && f.Exec?
  {
    var x, y := Perform(e.now, e.order, a, e.cmd).reply, Perform(f.now, f.order, b, f.cmd).reply;
    match Read(e.cmd)
    case Run(_, op) => op.DbSize? || SameReply(op, x, y)
    case _ => x == y
  }

  /** Every command is answered alike, and in the end the unexpired keyspaces agree from time t on. */
  ghost predicate Indistinguishable(a: Store, es: seq<Event>, b: Store, fs: seq<Event>, t: int)
    requires WellFormed(a) && WellFormed(b) && PossibleRun(a, es) && PossibleRun(b, fs)
    decreases |es| + |fs|
  {
    if es != [] && es[0].Cycle? then
      NextWellFormed(a, es[0]);
      Indistinguishable(Next(a, es[0]), es[1..], b, fs, Later(t, es[0].now))
    else if fs != [] && fs[0].Cycle? then
      NextWellFormed(b, fs[0]);
      Indistinguishable(a, es, Next(b, fs[0]), fs[1..], Later(t, fs[0].now))
    else if es == [] || fs == [] then
      es == fs && forall later :: t <= later ==> Purge(a, later) == Purge(b, later)
    else
      NextWellFormed(a, es[0]);
      NextWellFormed(b, fs[0]);
      && SameAnswer(a, es[0], b, fs[0])
      && Indistinguishable(Next(a, es[0]), es[1..], Next(b, fs[0]), fs[1..], Later(t, es[0].now))
  }

  lemma CommandAlike(a: Store, e: Event, b: Store, f: Event)
    requires WellFormed(a) && WellFormed(b) && e.Exec? && f.Exec?
    requires Possible(a, e) && Possible(b, f) && e.now == f.now && e.cmd == f.cmd
    requires Purge(a, e.now) == Purge(b, e.now)
    ensures SameAnswer(a, e, b, f) && Purge(Next(a, e), e.now) == Purge(Next(b, f), e.now)
  {
    hide Apply;
    if Read(e.cmd).Run? {
      EvictionTimingUnobservable(e.now, e.order, a, f.order, b, Read(e.cmd).op);
    }
  }

  /** An active cycle does not change the view at any later time. */
  lemma CycleInvisible(s: Store, e: Event, t: int)
    requires WellFormed(s) && e.Cycle? && Possible(s, e) && e.now <= t
    ensures Purge(Next(s, e), t) == Purge(s, t)
  {
    assert forall k :: k in e.keys ==> Lapsed(At(s, k), e.now);
    PurgeAbsorbs(s, Members(e.keys), t);
  }

  lemma ViewLater(a: Store, b: Store, t: int, later: int)
    requires Purge(a, t) == Purge(b, t) && t <= later
    ensures Purge(a, later) == Purge(b, later)
  {
    PurgeLater(a, t, later);
    PurgeLater(b, t, later);
  }

  /**
   Active cycles, their random picks and stale keys that nobody evicted yet are stuttering
   steps: starting from the same view, any two runs of the same commands are indistinguishable.
   */
  lemma {:induction false} EvictionsStutter(ta: int, a: Store, es: seq<Event>, tb: int, b: Store, fs: seq<Event>)
    requires WellFormed(a) && WellFormed(b) && PossibleRun(a, es) && PossibleRun(b, fs)
    requires Monotone(ta, es) && Monotone(tb, fs) && SameCommands(es, fs)
    requires Purge(a, Later(ta, tb)) == Purge(b, Later(ta, tb))
    ensures Indistinguishable(a, es, b, fs, Later(ta, tb))
    decreases |es| + |fs|
  {
    hide Next, Possible, Fits, SameAnswer, Purge;
    var t := Later(ta, tb);
    if es != [] && es[0].Cycle? {
      var now := es[0].now;
      var t' := Later(t, now);
      NextWellFormed(a, es[0]);
      ViewLater(a, b, t, t');
      CycleInvisible(a, es[0], t');
      assert t' == Later(now, tb);
      EvictionsStutter(now, Next(a, es[0]), es[1..], tb, b, fs);
    } else if fs != [] && fs[0].Cycle? {
      var now := fs[0].now;
      var t' := Later(t, now);
      NextWellFormed(b, fs[0]);
      ViewLater(a, b, t, t');
      CycleInvisible(b, fs[0], t');
      assert t' == Later(ta, now);
      EvictionsStutter(ta, a, es, now, Next(b, fs[0]), fs[1..]);
    } else if es == [] || fs == [] {
      forall later | t <= later
        ensures Purge(a, later) == Purge(b, later)
      {
        ViewLater(a, b, t, later);
      }
    } else {
      var now := es[0].now;
      NextWellFormed(a, es[0]);
      NextWellFormed(b, fs[0]);
      ViewLater(a, b, t, now);
      CommandAlike(a, es[0], b, fs[0]);
      EvictionsStutter(now, Next(a, es[0]), es[1..], now, Next(b, fs[0]), fs[1..]);
    }
  }
}
