/**
 The wired-up server as a state machine: keyspace, log and failure latch. A step is
 a command, an active cycle or a deferred fsync, with the outcome of every append and
 fsync it attempts given; the theorems are about every run and every outcome.
 */
module Server {
  import opened Base
  import opened WalFormat
  import opened Keyspace
  import opened Commands
  import opened Execution
  import opened Recovery
  import opened Wal

  /** `logging` is whether a log is attached: it is not during replay. */
  datatype Server = Server(store: Store, wal: WalState, logging: bool, failed: bool, shutdown: bool)

  /** Appends one record unless there is no log or it has failed; a failure latches. */
  function PutRecord(sv: Server, rec: Command, io: Io): Server {
    if !sv.logging || sv.failed then sv
    else
      var (w, ok) := Append(sv.wal, rec, io);
      if ok then sv.(wal := w) else sv.(wal := w, failed := true, shutdown := true)
  }

  function PutRecords(sv: Server, recs: seq<Command>, ios: seq<Io>): Server
    requires |ios| == |recs|
    decreases |recs|
  {
    if recs == [] then sv else PutRecords(PutRecord(sv, recs[0], ios[0]), recs[1..], ios[1..])
  }

  lemma {:induction false} PutRecordsAppend(sv: Server, a: seq<Command>, ia: seq<Io>, b: seq<Command>, ib: seq<Io>)
    requires |ia| == |a| && |ib| == |b|
    ensures PutRecords(sv, a + b, ia + ib) == PutRecords(PutRecords(sv, a, ia), b, ib)
    decreases |a|
  {
    if a == [] {
      assert a + b == b && ia + ib == ib;
    } else {
      assert (a + b)[1..] == a[1..] + b && (ia + ib)[1..] == ia[1..] + ib;
      PutRecordsAppend(PutRecord(sv, a[0], ia[0]), a[1..], ia[1..], b, ib);
    }
  }

  /** Appending touches the log and the latch only. */
  lemma {:induction false} PutRecordsFrame(sv: Server, recs: seq<Command>, ios: seq<Io>)
    requires |ios| == |recs|
    ensures var r := PutRecords(sv, recs, ios);
            && r.store == sv.store && r.logging == sv.logging && (sv.failed ==> r == sv)
            && (r.shutdown == (sv.shutdown || (r.failed && !sv.failed)))
            && (!sv.logging ==> r == sv)
            && r.wal.policy == sv.wal.policy && r.wal.open == sv.wal.open
    decreases |recs|
  {
    if recs != [] {
      PutRecordsFrame(PutRecord(sv, recs[0], ios[0]), recs[1..], ios[1..]);
    }
  }

  // ---- steps ---------------------------------------------------------------

  datatype Step =
    | Do(event: Event, ios: seq<Io>)
    | Sync(now: int, ok: bool)

  /** The dispatcher's execute, or an active cycle with its evict-hook calls. */
  function DoEvent(sv: Server, e: Event, ios: seq<Io>): Server
    requires WellFormed(sv.store) && |ios| == |Owes(sv.store, e)|
  {
    if e.Exec? && sv.failed then sv
    else
      var sv' := PutRecords(sv.(store := Next(sv.store, e)), Owes(sv.store, e), ios);
      if e.Exec? && Read(e.cmd).Stop? then sv'.(shutdown := true) else sv'
  }

  /** The maintenance tick's deferred fsync, skipped once persistence has failed. */
  function DoSync(sv: Server, now: int, ok: bool): Server {
    if !sv.logging || sv.failed then sv
    else
      var (w, done) := TickFsync(sv.wal, now, ok);
      if done then sv.(wal := w) else sv.(wal := w, failed := true, shutdown := true)
  }

  function After(sv: Server, st: Step): Server
    requires WellFormed(sv.store)
    requires st.Do? ==> |st.ios| == |Owes(sv.store, st.event)|
  {
    match st
    case Do(e, ios) => DoEvent(sv, e, ios)
    case Sync(now, ok) => DoSync(sv, now, ok)
  }

  /** The reply the client gets, decided after logging. */
  function ReplyTo(sv: Server, e: Event, ios: seq<Io>): Bytes
    requires WellFormed(sv.store) && e.Exec? && |ios| == |Owes(sv.store, e)|
  {
    if DoEvent(sv, e, ios).failed then MISCONF else Perform(e.now, e.order, sv.store, e.cmd).reply
  }

  ghost predicate Can(sv: Server, st: Step)
    requires WellFormed(sv.store)
  {
    st.Do? ==> Possible(sv.store, st.event) && Fits(sv.store, st.event) && |st.ios| == |Owes(sv.store, st.event)|
  }

  lemma AfterWellFormed(sv: Server, st: Step)
    requires WellFormed(sv.store) && Can(sv, st)
    ensures WellFormed(After(sv, st).store)
  {
    if st.Do? {
      NextWellFormed(sv.store, st.event);
      PutRecordsFrame(sv.(store := Next(sv.store, st.event)), Owes(sv.store, st.event), st.ios);
    }
  }

  ghost predicate CanRun(sv: Server, steps: seq<Step>)
    requires WellFormed(sv.store)
    decreases |steps|
  {
    steps == [] ||
    (Can(sv, steps[0]) &&
     (AfterWellFormed(sv, steps[0]);
      CanRun(After(sv, steps[0]), steps[1..])))
  }

  ghost function RunSteps(sv: Server, steps: seq<Step>): (r: Server)
    requires WellFormed(sv.store) && CanRun(sv, steps)
    ensures WellFormed(r.store)
    decreases |steps|
  {
    if steps == [] then sv
    else
      AfterWellFormed(sv, steps[0]);
      RunSteps(After(sv, steps[0]), steps[1..])
  }

  lemma {:induction false} RunSplits(sv: Server, a: seq<Step>, b: seq<Step>)
    requires WellFormed(sv.store) && CanRun(sv, a + b)
    ensures CanRun(sv, a) && CanRun(RunSteps(sv, a), b)
    ensures RunSteps(sv, a + b) == RunSteps(RunSteps(sv, a), b)
    decreases |a|
  {
    if a == [] {
      assert a + b == b;
    } else {
      assert (a + b)[1..] == a[1..] + b && (a + b)[0] == a[0];
      AfterWellFormed(sv, a[0]);
      RunSplits(After(sv, a[0]), a[1..], b);
    }
  }

  // ---- the failure latch ---------------------------------------------------

  /** A step after a failure: MISCONF, and the log is not touched. */
  lemma LatchedStep(sv: Server, st: Step)
    requires WellFormed(sv.store) && Can(sv, st) && sv.failed
    ensures var sv' := After(sv, st); sv'.failed && sv'.wal == sv.wal
    ensures st.Do? && st.event.Exec? ==> After(sv, st) == sv && ReplyTo(sv, st.event, st.ios) == MISCONF
  {
    if st.Do? {
      PutRecordsFrame(sv.(store := Next(sv.store, st.event)), Owes(sv.store, st.event), st.ios);
    }
  }

  /** After the first failed append or fsync, every later command is refused and nothing is written or synced. */
  lemma {:induction false} FailureLatch(sv: Server, steps: seq<Step>, i: nat)
    requires WellFormed(sv.store) && CanRun(sv, steps) && sv.failed && i <= |steps|
    ensures CanRun(sv, steps[..i])
    ensures var sv' := RunSteps(sv, steps[..i]);
            && sv'.failed && sv'.wal == sv.wal
            && (i < |steps| && steps[i].Do? && steps[i].event.Exec? ==>
                  && |steps[i].ios| == |Owes(sv'.store, steps[i].event)|
                  && ReplyTo(sv', steps[i].event, steps[i].ios) == MISCONF)
    decreases |steps|
  {
    if i == 0 {
      assert steps[..0] == [];
      if |steps| > 0 && steps[0].Do? {
        LatchedStep(sv, steps[0]);
      }
    } else {
      assert steps[..i][1..] == steps[1..][..i - 1];
      AfterWellFormed(sv, steps[0]);
      LatchedStep(sv, steps[0]);
      FailureLatch(After(sv, steps[0]), steps[1..], i - 1);
    }
  }

  /** The latch is set exactly by a call on the log that failed. */
  lemma {:induction false} PutRecordsFail(sv: Server, recs: seq<Command>, ios: seq<Io>)
    requires |ios| == |recs| && sv.wal.open
    ensures var r := PutRecords(sv, recs, ios);
            && r.wal.failures == sv.wal.failures + (if r.failed && !sv.failed then 1 else 0)
            && (sv.failed ==> r.failed)
    decreases |recs|
  {
    hide TornBytes, Encode;
    if recs != [] {
      PutRecordsFail(PutRecord(sv, recs[0], ios[0]), recs[1..], ios[1..]);
    }
  }

  lemma StepFails(sv: Server, st: Step)
    requires WellFormed(sv.store) && Can(sv, st) && sv.wal.open && !sv.failed
    ensures var r := After(sv, st); r.wal.open && r.wal.failures == sv.wal.failures + if r.failed then 1 else 0
  {
    hide Next, Owes;
    if st.Do? {
      PutRecordsFail(sv.(store := Next(sv.store, st.event)), Owes(sv.store, st.event), st.ios);
      PutRecordsFrame(sv.(store := Next(sv.store, st.event)), Owes(sv.store, st.event), st.ios);
    }
  }

  /** Over whole runs: persistence has failed exactly when a call on the log has, and there is no second one. */
  lemma {:induction false} FailedMeans(sv: Server, steps: seq<Step>)
    requires WellFormed(sv.store) && CanRun(sv, steps) && sv.wal.open && !sv.failed
    ensures var r := RunSteps(sv, steps); r.wal.failures == sv.wal.failures + if r.failed then 1 else 0
    decreases |steps|
  {
    hide After, Next, Owes, Fits, Possible;
    if steps != [] {
      AfterWellFormed(sv, steps[0]);
      StepFails(sv, steps[0]);
      var r := After(sv, steps[0]);
      if r.failed {
        FailureLatch(r, steps[1..], |steps[1..]|);
        assert steps[1..][..|steps[1..]|] == steps[1..];
      } else {
        FailedMeans(r, steps[1..]);
      }
    }
  }

  // ---- the shape of the log ------------------------------------------------

  /** Log and latch are consistent, and the log is open when attached. */
  ghost predicate Sound(sv: Server) {
    WellFormed(sv.store) && sv.logging && sv.wal.open && Shaped(sv.wal, sv.failed)
  }

  /** The file only grows, and what is synced stays synced. */
  predicate Extends(a: WalState, b: WalState) {
    a.file <= b.file && a.synced <= b.synced && a.records <= b.records && a.policy == b.policy
  }

  lemma PutRecordSound(sv: Server, rec: Command, io: Io)
    requires Sound(sv)
    ensures Sound(PutRecord(sv, rec, io)) && Extends(sv.wal, PutRecord(sv, rec, io).wal)
  {
    hide Encode, EncodeAll, Shaped;
    if !sv.failed {
      AppendShaped(sv.wal, rec, io);
    }
  }

  lemma {:induction false} PutRecordsSound(sv: Server, recs: seq<Command>, ios: seq<Io>)
    requires Sound(sv) && |ios| == |recs|
    ensures Sound(PutRecords(sv, recs, ios)) && Extends(sv.wal, PutRecords(sv, recs, ios).wal)
    decreases |recs|
  {
    hide Sound, PutRecord;
    if recs != [] {
      PutRecordSound(sv, recs[0], ios[0]);
      PutRecordsSound(PutRecord(sv, recs[0], ios[0]), recs[1..], ios[1..]);
    }
  }

  lemma AfterSound(sv: Server, st: Step)
    requires Sound(sv) && Can(sv, st)
    ensures Sound(After(sv, st)) && Extends(sv.wal, After(sv, st).wal)
  {
    hide Encode, EncodeAll, Shaped;
    match st {
      case Do(e, ios) =>
        if !(e.Exec? && sv.failed) {
          NextWellFormed(sv.store, e);
          PutRecordsSound(sv.(store := Next(sv.store, e)), Owes(sv.store, e), ios);
        }
      case Sync(now, ok) =>
        if !sv.failed {
          TickShaped(sv.wal, now, ok);
        }
    }
  }

  /**
   In every reachable state the file is its complete records, followed by a cut record only
   after a failure has latched; so nothing is ever appended after a torn record.
   */
  lemma {:induction false} ReachableLogShape(sv: Server, steps: seq<Step>)
    requires Sound(sv) && CanRun(sv, steps)
    ensures Sound(RunSteps(sv, steps)) && Extends(sv.wal, RunSteps(sv, steps).wal)
    decreases |steps|
  {
    hide Sound, After;
    if steps != [] {
      assert WellFormed(sv.store) by {
        SoundStore(sv);
      }
      AfterWellFormed(sv, steps[0]);
      AfterSound(sv, steps[0]);
      ReachableLogShape(After(sv, steps[0]), steps[1..]);
    }
  }

  lemma SoundStore(sv: Server)
    requires Sound(sv)
    ensures WellFormed(sv.store)
  {
  }

  /** A server whose log has just been replayed and is clean. */
  lemma CleanLogSound(sv: Server)
    requires WellFormed(sv.store) && sv.logging && sv.wal.open && !sv.failed
    requires sv.wal.file == EncodeAll(sv.wal.records) && sv.wal.torn.None? && sv.wal.synced == |sv.wal.file|
    ensures Sound(sv)
  {
    assert Attempted(sv.wal) == sv.wal.records;
  }

  /** A server that has just started on an empty disk. */
  lemma BootSound(policy: FsyncPolicy)
    ensures Sound(Server(EMPTY, WalState(policy, true, [], 0, 0, false, 0, [], None), true, false, false))
  {
  }

  // ---- what is in the log --------------------------------------------------

  /** The events that reached the keyspace while the log had not failed. */
  ghost function LoggedEvents(sv: Server, steps: seq<Step>): seq<Event>
    requires WellFormed(sv.store) && CanRun(sv, steps)
    decreases |steps|
  {
    if steps == [] || sv.failed then []
    else
      AfterWellFormed(sv, steps[0]);
      (if steps[0].Do? then [steps[0].event] else []) + LoggedEvents(After(sv, steps[0]), steps[1..])
  }

  predicate Stops(e: Event) {
    e.Exec? && Read(e.cmd).Stop?
  }

  lemma StepShutdown(sv: Server, st: Step)
    requires WellFormed(sv.store) && Can(sv, st)
    ensures var r := After(sv, st);
            && (sv.failed ==> r.failed)
            && (r.shutdown <==> sv.shutdown || (!sv.failed && (r.failed || (st.Do? && Stops(st.event)))))
  {
    hide Next, Owes, Fits, Possible;
    if st.Do? {
      PutRecordsFrame(sv.(store := Next(sv.store, st.event)), Owes(sv.store, st.event), st.ios);
    }
  }

  ghost predicate SomeStops(es: seq<Event>) {
    exists i :: 0 <= i < |es| && Stops(es[i])
  }

  lemma SomeStopsAppend(a: seq<Event>, b: seq<Event>)
    ensures SomeStops(a + b) <==> SomeStops(a) || SomeStops(b)
  {
    hide Stops;
    if SomeStops(b) {
      var i :| 0 <= i < |b| && Stops(b[i]);
      assert Stops((a + b)[|a| + i]);
    }
    if SomeStops(a) {
      var i :| 0 <= i < |a| && Stops(a[i]);
      assert Stops((a + b)[i]);
    }
  }

  /** Shutdown is asked for exactly by a SHUTDOWN command that was run, or by a failure. */
  lemma {:induction false} ShutdownMeans(sv: Server, steps: seq<Step>)
    requires WellFormed(sv.store) && CanRun(sv, steps)
    ensures var r := RunSteps(sv, steps);
            && (sv.failed ==> r.failed)
            && (r.shutdown <==> sv.shutdown || (!sv.failed && r.failed) || SomeStops(LoggedEvents(sv, steps)))
    decreases |steps|
  {
    hide After, Next, Owes, Fits, Possible, SomeStops, Stops;
    NoneStops();
    if steps != [] {
      AfterWellFormed(sv, steps[0]);
      StepShutdown(sv, steps[0]);
      var r := After(sv, steps[0]);
      ShutdownMeans(r, steps[1..]);
      if !sv.failed {
        var first := if steps[0].Do? then [steps[0].event] else [];
        SomeStopsAppend(first, LoggedEvents(r, steps[1..]));
        if steps[0].Do? {
          OneStops(steps[0].event);
        }
      } else {
        LatchedEvents(r, steps[1..]);
      }
    }
  }

  lemma NoneStops()
    ensures !SomeStops([])
  {
  }

  lemma OneStops(e: Event)
    ensures SomeStops([e]) <==> Stops(e)
  {
    hide Stops;
    assert [e][0] == e;
  }

  lemma LatchedEvents(sv: Server, steps: seq<Step>)
    requires WellFormed(sv.store) && CanRun(sv, steps) && sv.failed
    ensures LoggedEvents(sv, steps) == []
  {
  }

  lemma PutRecordWrites(sv: Server, rec: Command, io: Io)
    requires sv.logging && sv.wal.open
    ensures var r := PutRecord(sv, rec, io);
            && r.logging && r.wal.open
            && sv.wal.records <= r.wal.records
            && (sv.failed ==> r == sv)
            && (!r.failed ==> r.wal.records == sv.wal.records + [rec] && r.wal.torn == sv.wal.torn)
            && (!sv.failed && sv.wal.torn.None? ==> Attempted(r.wal) <= sv.wal.records + [rec])
  {
  }

  lemma {:induction false} PutRecordsWrites(sv: Server, recs: seq<Command>, ios: seq<Io>)
    requires sv.logging && sv.wal.open && |ios| == |recs|
    ensures var r := PutRecords(sv, recs, ios);
            && sv.wal.records <= r.wal.records
            && (!sv.failed && sv.wal.torn.None? ==> Attempted(r.wal) <= sv.wal.records + recs)
            && (!r.failed ==> r.wal.records == sv.wal.records + recs)
    decreases |recs|
  {
    hide PutRecord;
    if recs == [] {
      assert sv.wal.records + recs == sv.wal.records;
    } else {
      var sv1 := PutRecord(sv, recs[0], ios[0]);
      PutRecordWrites(sv, recs[0], ios[0]);
      PutRecordsWrites(sv1, recs[1..], ios[1..]);
      PutRecordsFrame(sv1, recs[1..], ios[1..]);
      assert (sv.wal.records + [recs[0]]) + recs[1..] == sv.wal.records + recs;
    }
  }

  /** What one step does to the records, as long as the log has not failed. */
  lemma StepWrites(sv: Server, st: Step)
    requires Sound(sv) && !sv.failed && Can(sv, st)
    ensures var r := After(sv, st);
            var owed := if st.Do? then Owes(sv.store, st.event) else [];
            && Attempted(r.wal) <= sv.wal.records + owed
            && (!r.failed ==> r.wal.records == sv.wal.records + owed)
            && r.store == if st.Do? then Next(sv.store, st.event) else sv.store
  {
    hide EncodeAll, Encode, Next, Owes;
    match st {
      case Do(e, ios) =>
        var sv1 := sv.(store := Next(sv.store, e));
        PutRecordsWrites(sv1, Owes(sv.store, e), ios);
        PutRecordsFrame(sv1, Owes(sv.store, e), ios);
      case Sync(now, ok) =>
        assert sv.wal.records + [] == sv.wal.records;
    }
  }
}
