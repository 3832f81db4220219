/**
 What the everysec policy promises. Maintenance ticks sync the log when a second has gone by
 since the last time, so in every run that has not failed, whatever was written a second or
 more before the last tick survives a crash; and no two syncs are less than a second apart.
 */
module EverySecond {
  import opened Base
  import opened WalFormat
  import opened Keyspace
  import opened Execution
  import opened Recovery
  import opened Wal
  import opened Server
  import opened Durability

  /** The wall clock of a step. */
  function ClockOf(st: Step): int {
    match st
    case Do(e, _) => e.now
    case Sync(now, _) => now
  }

  /** The clock after some steps that begin at time t. */
  function ClockAfter(t: int, steps: seq<Step>): int {
    if steps == [] then t else ClockOf(steps[|steps| - 1])
  }

  /** The clock never steps back. */
  predicate Ordered(t: int, steps: seq<Step>) {
    forall i :: 0 <= i < |steps| ==> ClockAfter(t, steps[..i]) <= ClockOf(steps[i])
  }

  /** When the maintenance tick last ran, if it has. */
  function LastTick(steps: seq<Step>): Option<int> {
    if steps == [] then None
    else
      match steps[|steps| - 1]
      case Sync(now, _) => Some(now)
      case Do(_, _) => LastTick(steps[..|steps| - 1])
  }

  lemma OrderedPrefix(t: int, steps: seq<Step>, i: nat)
    requires Ordered(t, steps) && i <= |steps|
    ensures Ordered(t, steps[..i])
  {
    forall j | 0 <= j < i
      ensures ClockAfter(t, steps[..i][..j]) <= ClockOf(steps[..i][j])
    {
      assert steps[..i][..j] == steps[..j];
    }
  }

  lemma {:induction false} TicksPast(t: int, steps: seq<Step>)
    requires Ordered(t, steps)
    ensures t <= ClockAfter(t, steps)
    ensures LastTick(steps).Some? ==> LastTick(steps).value <= ClockAfter(t, steps)
    decreases |steps|
  {
    if steps != [] {
      var n := |steps| - 1;
      OrderedPrefix(t, steps, n);
      TicksPast(t, steps[..n]);
    }
  }

  // ---- one tick ------------------------------------------------------------

  /**
   A tick that does not fail, a second or more after the last sync, leaves nothing unsynced;
   one that comes earlier does nothing.
   */
  lemma TickSyncs(sv: Server, now: int, ok: bool)
    requires Sound(sv) && !sv.failed && sv.wal.policy.KEverySec? && !After(sv, Sync(now, ok)).failed
    ensures var w, w' := sv.wal, After(sv, Sync(now, ok)).wal;
            && w'.file == w.file
            && (now - w.lastFsyncMs >= 1000 ==> w'.synced == |w'.file| && !w'.dirty)
            && (now - w.lastFsyncMs < 1000 ==> w' == w)
            && (w' != w ==> w'.lastFsyncMs == now && w'.synced == |w'.file|)
            && (w'.lastFsyncMs == w.lastFsyncMs || w'.lastFsyncMs == now)
  {
  }

  /** Commands and cycles do not touch the time of the last sync. */
  lemma {:induction false} PutRecordsTime(sv: Server, recs: seq<Command>, ios: seq<Io>)
    requires |ios| == |recs|
    ensures PutRecords(sv, recs, ios).wal.lastFsyncMs == sv.wal.lastFsyncMs
    decreases |recs|
  {
    if recs != [] {
      PutRecordsTime(PutRecord(sv, recs[0], ios[0]), recs[1..], ios[1..]);
    }
  }

  // ---- whole runs ----------------------------------------------------------

  /** The run without its last step, which was taken in a state that had not failed. */
  lemma LastStep(sv: Server, steps: seq<Step>)
    requires Sound(sv) && CanRun(sv, steps) && steps != [] && !RunSteps(sv, steps).failed
    ensures var n := |steps| - 1;
            && CanRun(sv, steps[..n])
            && var mid := RunSteps(sv, steps[..n]);
            && Sound(mid) && !mid.failed && Can(mid, steps[n])
            && RunSteps(sv, steps) == After(mid, steps[n]) && Sound(After(mid, steps[n]))
            && Extends(mid.wal, After(mid, steps[n]).wal)
  {
    hide Sound, After, Can;
    SoundStore(sv);
    var n := |steps| - 1;
    assert steps == steps[..n] + [steps[n]];
    RunSplits(sv, steps[..n], [steps[n]]);
    ReachableLogShape(sv, steps[..n]);
    var mid := RunSteps(sv, steps[..n]);
    OneStep(mid, steps[n]);
    AfterSound(mid, steps[n]);
    if mid.failed {
      LatchedStep(mid, steps[n]);
    }
  }

  lemma OneStep(sv: Server, st: Step)
    requires WellFormed(sv.store) && CanRun(sv, [st])
    ensures Can(sv, st) && RunSteps(sv, [st]) == After(sv, st)
  {
    hide After, Can;
    AfterWellFormed(sv, st);
    assert [st][1..] == [];
  }

  /** A server that begins at time t with nothing unsynced, under the everysec policy. */
  ghost predicate Begins(sv: Server, t: int) {
    Sound(sv) && FullySynced(sv) && sv.wal.policy.KEverySec? && sv.wal.lastFsyncMs <= t
  }

  /** What the first i steps wrote is synced if they lie before the last sync, or a second before the last tick. */
  ghost predicate Covers(t: int, steps: seq<Step>, i: nat, mid: WalState, end: WalState)
    requires i <= |steps|
  {
    var at := ClockAfter(t, steps[..i]);
    (i == 0 || at < end.lastFsyncMs || (LastTick(steps).Some? && at <= LastTick(steps).value - 1000)) ==>
      |mid.file| <= end.synced
  }

  /** One more step: the clock of the last sync stays behind, and what was covered stays covered. */
  lemma CoversNext(mid: Server, t: int, steps: seq<Step>, i: nat, first: WalState)
    requires steps != [] && i < |steps| && Ordered(t, steps)
    requires Sound(mid) && !mid.failed && mid.wal.policy.KEverySec? && Can(mid, steps[|steps| - 1])
    requires !After(mid, steps[|steps| - 1]).failed
    requires var init := steps[..|steps| - 1];
             && mid.wal.lastFsyncMs <= ClockAfter(t, init) && first.file <= mid.wal.file
             && Covers(t, init, i, first, mid.wal)
    ensures var end := After(mid, steps[|steps| - 1]).wal;
            && end.lastFsyncMs <= ClockAfter(t, steps) && end.policy.KEverySec? && first.file <= end.file
            && Covers(t, steps, i, first, end)
  {
    hide Next, Owes, Fits, Possible, Shaped;
    var n := |steps| - 1;
    var st := steps[n];
    assert steps[..n][..i] == steps[..i];
    assert ClockAfter(t, steps[..n]) <= ClockOf(st);
    OrderedPrefix(t, steps, n);
    TicksPast(t, steps[..n]);
    AfterSound(mid, st);
    match st {
      case Do(e, ios) =>
        PutRecordsTime(mid.(store := Next(mid.store, e)), Owes(mid.store, e), ios);
      case Sync(now, ok) =>
        TickSyncs(mid, now, ok);
    }
  }

  lemma {:induction false} Covered(sv: Server, t: int, steps: seq<Step>, i: nat)
    requires Begins(sv, t) && CanRun(sv, steps) && Ordered(t, steps) && i <= |steps|
    requires !RunSteps(sv, steps).failed
    ensures CanRun(sv, steps[..i])
    ensures var end := RunSteps(sv, steps).wal;
            && end.lastFsyncMs <= ClockAfter(t, steps) && end.policy.KEverySec?
            && RunSteps(sv, steps[..i]).wal.file <= end.file
            && Covers(t, steps, i, RunSteps(sv, steps[..i]).wal, end)
    decreases |steps|
  {
    hide CanRun, RunSteps, Sound, Shaped, After, Can, Ordered, Covers;
    SoundStore(sv);
    if steps == [] {
      RunsNothing(sv);
      CoversStart(sv, t);
    } else {
      var n := |steps| - 1;
      LastStep(sv, steps);
      OrderedPrefix(t, steps, n);
      var j := if i < n then i else n;
      Covered(sv, t, steps[..n], j);
      assert steps[..n][..j] == steps[..j];
      CoversNext(RunSteps(sv, steps[..n]), t, steps, j, RunSteps(sv, steps[..j]).wal);
      if i == |steps| {
        assert steps[..i] == steps;
        CoversAll(t, steps, RunSteps(sv, steps).wal);
      }
    }
  }

  lemma CoversStart(sv: Server, t: int)
    requires Begins(sv, t)
    ensures Covers(t, [], 0, sv.wal, sv.wal)
  {
    ShapedMeans(sv.wal, false);
  }

  /** The last step is neither before the last sync nor a second before the last tick. */
  lemma CoversAll(t: int, steps: seq<Step>, end: WalState)
    requires steps != [] && Ordered(t, steps) && end.lastFsyncMs <= ClockAfter(t, steps)
    ensures Covers(t, steps, |steps|, end, end)
  {
    TicksPast(t, steps);
    assert steps[..|steps|] == steps;
  }

  /**
   In every run that has not failed, what had been written a second or more before the last
   tick is synced.
   */
  lemma SyncedWithinASecond(sv: Server, t: int, steps: seq<Step>, i: nat)
    requires Begins(sv, t) && CanRun(sv, steps) && Ordered(t, steps) && i <= |steps|
    requires !RunSteps(sv, steps).failed && LastTick(steps).Some?
    requires ClockAfter(t, steps[..i]) <= LastTick(steps).value - 1000
    ensures CanRun(sv, steps[..i])
    ensures |RunSteps(sv, steps[..i]).wal.file| <= RunSteps(sv, steps).wal.synced
  {
    hide CanRun, RunSteps, Sound, Ordered;
    SoundStore(sv);
    Covered(sv, t, steps, i);
  }

  /** No two ticks are more than d apart, counting from the start at time t and up to `now`. */
  predicate TicksEvery(d: nat, t: int, steps: seq<Step>, now: int) {
    now - (if LastTick(steps).Some? then LastTick(steps).value else t) <= d &&
    forall i :: 0 <= i < |steps| && steps[i].Sync? ==>
      ClockOf(steps[i]) - (if LastTick(steps[..i]).Some? then LastTick(steps[..i]).value else t) <= d
  }

  /** Against the clock: if ticks come at most d apart, whatever is older than a second and d is synced. */
  lemma SyncedByAge(sv: Server, t: int, steps: seq<Step>, i: nat, d: nat, now: int)
    requires Begins(sv, t) && CanRun(sv, steps) && Ordered(t, steps) && i <= |steps|
    requires !RunSteps(sv, steps).failed && TicksEvery(d, t, steps, now)
    requires ClockAfter(t, steps[..i]) <= now - 1000 - d
    ensures CanRun(sv, steps[..i])
    ensures |RunSteps(sv, steps[..i]).wal.file| <= RunSteps(sv, steps).wal.synced
  {
    hide CanRun, RunSteps, Sound;
    SoundStore(sv);
    OrderedPrefix(t, steps, i);
    TicksPast(t, steps[..i]);
    SyncedWithinASecond(sv, t, steps, i);
  }

  /**
   What a client can rely on under everysec: a crash, however it cuts the unsynced bytes, does
   not lose what was owed a second or more before the last tick.
   */
  lemma OldIsDurable(sv: Server, t: int, steps: seq<Step>, i: nat, n: nat)
    requires Begins(sv, t) && CanRun(sv, steps) && Ordered(t, steps) && i <= |steps|
    requires !RunSteps(sv, steps).failed && LastTick(steps).Some? && Loggable(sv, steps)
    requires ClockAfter(t, steps[..i]) <= LastTick(steps).value - 1000
    requires RunSteps(sv, steps).wal.synced <= n <= |RunSteps(sv, steps).wal.file|
    ensures CanRun(sv, steps[..i]) && PossibleRun(sv.store, LoggedEvents(sv, steps[..i]))
    ensures var cut := RunSteps(sv, steps).wal.file[..n];
            var old_ := sv.wal.records + AllOwed(sv.store, LoggedEvents(sv, steps[..i]));
            !Damaged(cut) && old_ <= Delivered(cut) <= RunSteps(sv, steps).wal.records
  {
    hide EncodeAll, Encode, Delivered, Damaged, CanRun, RunSteps, LoggedEvents, AllOwed, Ordered, Covers;
    SyncedWithinASecond(sv, t, steps, i);
    var mid, end := RunSteps(sv, steps[..i]), RunSteps(sv, steps);
    assert steps == steps[..i] + steps[i..];
    RunSplits(sv, steps[..i], steps[i..]);
    ReachableLogShape(sv, steps[..i]);
    ReachableLogShape(mid, steps[i..]);
    UnfailedBefore(mid, steps[i..]);
    LogHoldsRun(sv, steps[..i]);
    LogHoldsRun(sv, steps);
    EncodablePrefix(Attempted(end.wal), sv.wal.records + AllOwed(sv.store, LoggedEvents(sv, steps)));
    CrashDelivers(end.wal, end.failed, n);
    ShapedMeans(mid.wal, false);
    assert mid.wal.records <= end.wal.records && |EncodeAll(mid.wal.records)| <= n;
  }

  lemma UnfailedBefore(sv: Server, steps: seq<Step>)
    requires WellFormed(sv.store) && CanRun(sv, steps) && !RunSteps(sv, steps).failed
    ensures !sv.failed
  {
    assert steps[..|steps|] == steps;
    if sv.failed {
      FailureLatch(sv, steps, |steps|);
    }
  }

  // ---- no more often than that ---------------------------------------------

  /** One step moves the time of the last sync only to its own clock. */
  lemma LastSyncNext(sv: Server, st: Step)
    requires Sound(sv) && !sv.failed && sv.wal.policy.KEverySec? && Can(sv, st) && !After(sv, st).failed
    ensures var at := After(sv, st).wal.lastFsyncMs;
            at == sv.wal.lastFsyncMs || at == ClockOf(st)
  {
    hide Next, Owes, Fits, Possible, Shaped;
    match st {
      case Do(e, ios) =>
        PutRecordsTime(sv.(store := Next(sv.store, e)), Owes(sv.store, e), ios);
      case Sync(now, ok) =>
    }
  }

  lemma {:induction false} LastSyncGrows(sv: Server, t: int, steps: seq<Step>)
    requires Sound(sv) && sv.wal.policy.KEverySec? && CanRun(sv, steps) && Ordered(t, steps)
    requires !RunSteps(sv, steps).failed && sv.wal.lastFsyncMs <= t
    ensures var end := RunSteps(sv, steps);
            && sv.wal.lastFsyncMs <= end.wal.lastFsyncMs <= ClockAfter(t, steps)
            && Sound(end) && end.wal.policy.KEverySec?
    decreases |steps|
  {
    hide CanRun, RunSteps, Sound, Shaped, After, Can, Ordered;
    SoundStore(sv);
    if steps == [] {
      RunsNothing(sv);
    } else {
      var n := |steps| - 1;
      LastStep(sv, steps);
      OrderedPrefix(t, steps, n);
      LastSyncGrows(sv, t, steps[..n]);
      LastSyncNext(RunSteps(sv, steps[..n]), steps[n]);
      OrderedLast(t, steps);
    }
  }

  lemma RunsNothing(sv: Server)
    requires WellFormed(sv.store)
    ensures CanRun(sv, []) && RunSteps(sv, []) == sv
  {
  }

  lemma OrderedLast(t: int, steps: seq<Step>)
    requires steps != [] && Ordered(t, steps)
    ensures t <= ClockAfter(t, steps[..|steps| - 1]) <= ClockAfter(t, steps)
  {
    OrderedPrefix(t, steps, |steps| - 1);
    TicksPast(t, steps[..|steps| - 1]);
  }

  /** After a tick that synced, whatever happens then, a tick within the next second does not touch the log. */
  lemma SyncsApart(sv: Server, now: int, ok: bool, steps: seq<Step>, later: int, again: bool)
    requires Sound(sv) && !sv.failed && sv.wal.policy.KEverySec?
    requires var first := After(sv, Sync(now, ok));
             && first.wal != sv.wal && !first.failed && WellFormed(first.store)
             && CanRun(first, steps) && Ordered(now, steps) && !RunSteps(first, steps).failed
    requires later < now + 1000
    ensures var end := RunSteps(After(sv, Sync(now, ok)), steps); After(end, Sync(later, again)) == end
  {
    hide CanRun, RunSteps, Shaped;
    var first := After(sv, Sync(now, ok));
    AfterSound(sv, Sync(now, ok));
    TickSyncs(sv, now, ok);
    LastSyncGrows(first, now, steps);
  }

  // ---- the hypotheses together ---------------------------------------------

  /** A first server under everysec, its first command, SET k v at time 0, and a tick two seconds later. */
  const SECONDLY: Server := FIRST.(wal := FIRST.wal.(policy := KEverySec))
  const SET_THEN_TICK: seq<Step> := [Do(FIRST_SET, [Written(true)]), Sync(2000, true)]

  lemma TickRuns()
    ensures WellFormed(SECONDLY.store) && CanRun(SECONDLY, SET_THEN_TICK)
    ensures var end := RunSteps(SECONDLY, SET_THEN_TICK);
            var record := Encode(["SET", "k", "v"]);
            !end.failed && end.wal.file == record && end.wal.synced == |record| && end.wal.lastFsyncMs == 2000
    ensures LoggedEvents(SECONDLY, SET_THEN_TICK) == [FIRST_SET]
  {
    hide Encode, Next, Owes, Possible, Fits, Read;
    FirstSetOwes();
    var first, tick := SET_THEN_TICK[0], SET_THEN_TICK[1];
    AfterWellFormed(SECONDLY, first);
    var mid := After(SECONDLY, first);
    AfterWellFormed(mid, tick);
    assert SET_THEN_TICK[1..] == [tick] && [tick][1..] == [];
    var none: Bytes := [];
    assert none + Encode(["SET", "k", "v"]) == Encode(["SET", "k", "v"]);
    assert mid.wal.file == Encode(["SET", "k", "v"]) && mid.wal.dirty && !mid.failed;
    assert Can(mid, tick) && CanRun(After(mid, tick), []);
    assert CanRun(mid, [tick]) && RunSteps(mid, [tick]) == After(mid, tick);
    assert Can(SECONDLY, first) && CanRun(SECONDLY, SET_THEN_TICK);
    assert LoggedEvents(mid, [tick]) == [] + LoggedEvents(After(mid, tick), []) == [];
    assert [FIRST_SET] + [] == [FIRST_SET];
  }

  /** The hypotheses of the everysec results are met, for one, by that run, which leaves its record synced. */
  lemma EverySecondApplies()
    ensures Begins(SECONDLY, 0) && CanRun(SECONDLY, SET_THEN_TICK) && Ordered(0, SET_THEN_TICK)
    ensures !RunSteps(SECONDLY, SET_THEN_TICK).failed && Loggable(SECONDLY, SET_THEN_TICK)
    ensures LastTick(SET_THEN_TICK) == Some(2000) && ClockAfter(0, SET_THEN_TICK[..1]) <= 2000 - 1000
    ensures 0 < |RunSteps(SECONDLY, SET_THEN_TICK[..1]).wal.file| <= RunSteps(SECONDLY, SET_THEN_TICK).wal.synced
  {
    hide Encode, Next, Owes, Possible, Fits, RunSteps, CanRun, LoggedEvents;
    BootSound(KEverySec);
    FirstSetOwes();
    TickRuns();
    var steps := SET_THEN_TICK;
    assert steps[..1] == [steps[0]] && steps[..0] == [];
    assert forall i :: 0 <= i < |steps| ==> ClockAfter(0, steps[..i]) <= ClockOf(steps[i]);
    var recs := [["SET", "k", "v"]];
    assert [FIRST_SET][1..] == [];
    assert AllOwed(EMPTY, [FIRST_SET]) == recs;
    assert AllEncodable(REPLAY_FRAME_CAP, recs);
    assert PossibleRun(SECONDLY.store, LoggedEvents(SECONDLY, SET_THEN_TICK));
    assert SECONDLY.wal.records + AllOwed(SECONDLY.store, LoggedEvents(SECONDLY, SET_THEN_TICK)) == recs;
    SyncedWithinASecond(SECONDLY, 0, steps, 1);
    FirstWritten();
  }

  lemma FirstWritten()
    ensures WellFormed(SECONDLY.store) && CanRun(SECONDLY, SET_THEN_TICK[..1])
    ensures |RunSteps(SECONDLY, SET_THEN_TICK[..1]).wal.file| > 0
  {
    hide Encode, Next, Owes, Possible, Fits, Read;
    FirstSetOwes();
    var first := SET_THEN_TICK[0];
    AfterWellFormed(SECONDLY, first);
    assert SET_THEN_TICK[..1] == [first] && [first][1..] == [];
  }
}
