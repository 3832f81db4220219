/**
 From the log of a run to the state recovered after a crash: what replay delivers,
 what an acknowledgement guarantees, and which live state comes back.
 */
module Durability {
  import opened Base
  import opened WalFormat
  import opened Keyspace
  import opened Commands
  import opened Execution
  import opened Logging
  import opened Recovery
  import opened Cuts
  import opened Wal
  import opened Server

  // ---- the log holds the run -----------------------------------------------

  /**
   The log is the run: as long as nothing failed, it holds exactly what the events owed and
   the keyspace is what the events made; after a failure it holds a prefix of that.
   */
  lemma {:induction false} LogHoldsRun(sv: Server, steps: seq<Step>)
    requires Sound(sv) && !sv.failed && CanRun(sv, steps)
    ensures var es := LoggedEvents(sv, steps);
            var r := RunSteps(sv, steps);
            && PossibleRun(sv.store, es)
            && Attempted(r.wal) <= sv.wal.records + AllOwed(sv.store, es)
            && (!r.failed ==> r.wal.records == sv.wal.records + AllOwed(sv.store, es) && r.store == Final(sv.store, es))
    decreases |steps|
  {
    hide After, Next, Owes, Possible, Fits, Shaped;
    if steps == [] {
      assert sv.wal.records + [] == sv.wal.records;
      SoundUntorn(sv);
    } else {
      var st := steps[0];
      var r := After(sv, st);
      AfterWellFormed(sv, st);
      AfterSound(sv, st);
      StepWrites(sv, st);
      var rest := LoggedEvents(r, steps[1..]);
      if r.failed {
        FailureLatch(r, steps[1..], |steps[1..]|);
        assert steps[1..][..|steps[1..]|] == steps[1..];
        assert rest == [];
      } else {
        LogHoldsRun(r, steps[1..]);
      }
      FirstEvent(sv, st, rest);
    }
  }

  lemma SoundUntorn(sv: Server)
    requires Sound(sv) && !sv.failed
    ensures Attempted(sv.wal) == sv.wal.records
  {
  }

  lemma FirstEvent(sv: Server, st: Step, rest: seq<Event>)
    requires WellFormed(sv.store) && Can(sv, st) && WellFormed(After(sv, st).store)
    requires After(sv, st).store == (if st.Do? then Next(sv.store, st.event) else sv.store)
    requires PossibleRun(After(sv, st).store, rest)
    ensures var es := (if st.Do? then [st.event] else []) + rest;
            var owed := if st.Do? then Owes(sv.store, st.event) else [];
            && PossibleRun(sv.store, es)
            && sv.wal.records + AllOwed(sv.store, es) == (sv.wal.records + owed) + AllOwed(After(sv, st).store, rest)
            && Final(sv.store, es) == Final(After(sv, st).store, rest)
  {
    hide After, Next, Owes, Possible, Fits;
    if st.Do? {
      var es := [st.event] + rest;
      assert es[1..] == rest && es[0] == st.event;
      AppendAssoc(sv.wal.records, Owes(sv.store, st.event), AllOwed(After(sv, st).store, rest));
    } else {
      assert [] + rest == rest && sv.wal.records + [] == sv.wal.records;
    }
  }

  // ---- a crash keeps a prefix ----------------------------------------------

  /** Replaying any prefix of a log file delivers a prefix of its records, as long as the bytes reach. */
  lemma CrashDelivers(w: WalState, failed: bool, n: nat)
    requires Shaped(w, failed) && n <= |w.file| && AllEncodable(REPLAY_FRAME_CAP, Attempted(w))
    ensures !Damaged(w.file[..n])
    ensures Delivered(w.file[..n]) <= w.records
    ensures forall recs :: recs <= w.records && |EncodeAll(recs)| <= n ==> recs <= Delivered(w.file[..n])
  {
    hide EncodeAll, Encode, Delivered, Damaged, CompleteIn;
    var all := Attempted(w);
    var cut := w.file[..n];
    assert cut <= EncodeAll(all);
    CutLogDelivers(all, cut);
    var k := CompleteIn(all, n);
    CompleteInIsLargest(all, n, |all|);
    assert all[..|all|] == all;
    if w.torn.Some? {
      if |w.file| == |EncodeAll(all)| {
        PrefixSameLength(w.file, EncodeAll(all));
      }
      assert k < |all|;
      assert all[..k] == w.records[..k];
    }
    forall recs | recs <= w.records && |EncodeAll(recs)| <= n
      ensures recs <= Delivered(cut)
    {
      assert recs == all[..|recs|];
      CompleteInIsLargest(all, n, |recs|);
    }
  }

  /** Every record the run attempts stays within the limits replay accepts. */
  ghost predicate Loggable(sv: Server, steps: seq<Step>)
    requires WellFormed(sv.store) && CanRun(sv, steps)
  {
    PossibleRun(sv.store, LoggedEvents(sv, steps)) &&
    AllEncodable(REPLAY_FRAME_CAP, sv.wal.records + AllOwed(sv.store, LoggedEvents(sv, steps)))
  }

  /**
   Nothing of the log is waiting for an fsync: always so under the always policy as long as
   nothing has failed, and under the others when the last write has been synced.
   */
  predicate FullySynced(sv: Server) {
    !sv.failed && (sv.wal.policy.KAlways? || !sv.wal.dirty)
  }

  /**
   Acknowledged means durable. If the log was fully synced after the first i steps, then after any
   crash that keeps at least the synced bytes replay is not refused, delivers every record
   those steps owed, and delivers nothing that was not written.
   */
  lemma AckedIsDurable(sv: Server, steps: seq<Step>, i: nat, n: nat)
    requires Sound(sv) && !sv.failed && CanRun(sv, steps) && i <= |steps|
    requires CanRun(sv, steps[..i]) && FullySynced(RunSteps(sv, steps[..i]))
    requires Loggable(sv, steps)
    requires RunSteps(sv, steps).wal.synced <= n <= |RunSteps(sv, steps).wal.file|
    ensures PossibleRun(sv.store, LoggedEvents(sv, steps[..i]))
    ensures var cut := RunSteps(sv, steps).wal.file[..n];
            var acked := sv.wal.records + AllOwed(sv.store, LoggedEvents(sv, steps[..i]));
            !Damaged(cut) && acked <= Delivered(cut) <= RunSteps(sv, steps).wal.records
  {
    hide EncodeAll, Encode, Delivered, Damaged, CanRun, RunSteps, LoggedEvents, AllOwed;
    var mid, end := RunSteps(sv, steps[..i]), RunSteps(sv, steps);
    assert steps == steps[..i] + steps[i..];
    RunSplits(sv, steps[..i], steps[i..]);
    ReachableLogShape(sv, steps[..i]);
    ReachableLogShape(mid, steps[i..]);
    LogHoldsRun(sv, steps[..i]);
    LogHoldsRun(sv, steps);
    EncodablePrefix(Attempted(end.wal), sv.wal.records + AllOwed(sv.store, LoggedEvents(sv, steps)));
    CrashDelivers(end.wal, end.failed, n);
    ShapedMeans(mid.wal, false);
    assert mid.wal.records <= end.wal.records && |EncodeAll(mid.wal.records)| <= n;
  }

  lemma EncodablePrefix(a: seq<Command>, b: seq<Command>)
    requires a <= b && AllEncodable(REPLAY_FRAME_CAP, b)
    ensures AllEncodable(REPLAY_FRAME_CAP, a)
  {
  }

  /**
   What a client can rely on. Under the always policy, a command that was answered with
   anything but the persistence error is durable, and so is everything answered before it:
   after any crash that keeps the synced bytes, replay delivers all of their records.
   */
  lemma ReplyIsDurable(sv: Server, steps: seq<Step>, i: nat, n: nat)
    requires Sound(sv) && !sv.failed && sv.wal.policy.KAlways? && CanRun(sv, steps)
    requires i < |steps| && steps[i].Do? && steps[i].event.Exec?
    requires CanRun(sv, steps[..i]) && |steps[i].ios| == |Owes(RunSteps(sv, steps[..i]).store, steps[i].event)|
    requires ReplyTo(RunSteps(sv, steps[..i]), steps[i].event, steps[i].ios) != MISCONF
    requires Loggable(sv, steps)
    requires RunSteps(sv, steps).wal.synced <= n <= |RunSteps(sv, steps).wal.file|
    ensures CanRun(sv, steps[..i + 1]) && PossibleRun(sv.store, LoggedEvents(sv, steps[..i + 1]))
    ensures var cut := RunSteps(sv, steps).wal.file[..n];
            var answered := sv.wal.records + AllOwed(sv.store, LoggedEvents(sv, steps[..i + 1]));
            !Damaged(cut) && answered <= Delivered(cut)
  {
    hide Delivered, Damaged, LoggedEvents, AllOwed, Sound, Loggable, PossibleRun, CanRun, RunSteps, ReplyTo, Owes;
    var done, rest := steps[..i + 1], steps[i + 1..];
    assert steps == done + rest && done == steps[..i] + [steps[i]];
    SoundStore(sv);
    RunSplits(sv, done, rest);
    RunSplits(sv, steps[..i], [steps[i]]);
    ReachableLogShape(sv, done);
    AnsweredStep(RunSteps(sv, steps[..i]), steps[i]);
    AckedIsDurable(sv, steps, i + 1, n);
  }

  /** A command that was not answered with the persistence error met no failure. */
  lemma AnsweredStep(sv: Server, st: Step)
    requires WellFormed(sv.store) && CanRun(sv, [st]) && st.Do? && st.event.Exec?
    requires |st.ios| == |Owes(sv.store, st.event)| && ReplyTo(sv, st.event, st.ios) != MISCONF
    ensures !RunSteps(sv, [st]).failed
  {
    hide Owes, Perform;
    AfterWellFormed(sv, st);
    assert [st][1..] == [];
  }

  // ---- which state comes back ----------------------------------------------

  /**
   What survives a crash: everything in the log before the run, and what a shorter run owes
   that keeps at least all events up to any point where the log was fully synced.
   */
  ghost predicate Survives(sv: Server, steps: seq<Step>, n: nat, j: nat, kept: seq<Event>)
    requires WellFormed(sv.store) && CanRun(sv, steps) && n <= |RunSteps(sv, steps).wal.file|
  {
    var es := LoggedEvents(sv, steps);
    && KeptOf(kept, es, j) && PossibleRun(sv.store, kept) && PossibleRun(sv.store, es)
    && Delivered(RunSteps(sv, steps).wal.file[..n]) == sv.wal.records + AllOwed(sv.store, kept)
    && (forall i :: 0 <= i <= |steps| && SyncedAfter(sv, steps, i) ==> LoggedEvents(sv, steps[..i]) <= es[..j])
    && (forall rho :: HazardFree(rho, sv.store, es) ==> HazardFree(rho, sv.store, kept))
  }

  /** After the first i steps the log was fully synced. */
  ghost predicate SyncedAfter(sv: Server, steps: seq<Step>, i: nat)
    requires WellFormed(sv.store) && i <= |steps|
    ensures SyncedAfter(sv, steps, i) ==> CanRun(sv, steps[..i])
  {
    CanRun(sv, steps[..i]) && FullySynced(RunSteps(sv, steps[..i]))
  }

  /** A crash that keeps at least the synced bytes leaves a log that is not refused, of such a run. */
  lemma CrashKeeps(sv: Server, steps: seq<Step>, n: nat) returns (j: nat, kept: seq<Event>)
    requires Sound(sv) && FullySynced(sv) && CanRun(sv, steps) && Loggable(sv, steps)
    requires RunSteps(sv, steps).wal.synced <= n <= |RunSteps(sv, steps).wal.file|
    ensures !Damaged(RunSteps(sv, steps).wal.file[..n]) && Survives(sv, steps, n, j, kept)
  {
    hide EncodeAll, Encode, Delivered, Damaged, CanRun, RunSteps, LoggedEvents, AllOwed, PossibleRun;
    hide HazardFree, Shaped, CutOf;
    var es := LoggedEvents(sv, steps);
    var cut := RunSteps(sv, steps).wal.file[..n];
    NothingRun(sv, steps);
    AckedIsDurable(sv, steps, 0, n);
    LogHoldsRun(sv, steps);
    var before, all, d := sv.wal.records, AllOwed(sv.store, es), Delivered(cut);
    assert before + AllOwed(sv.store, []) == before;
    assert d <= before + all;
    var m := |d| - |before|;
    j, kept := KeptRun(sv.store, es, m);
    assert d == before + all[..m];
    forall i | 0 <= i <= |steps| && SyncedAfter(sv, steps, i)
      ensures LoggedEvents(sv, steps[..i]) <= es[..j]
    {
      var acked := LoggedEvents(sv, steps[..i]);
      AckedIsDurable(sv, steps, i, n);
      LoggedPrefix(sv, steps, i);
      assert es[..|acked|] == acked;
      assert |AllOwed(sv.store, acked)| <= m;
    }
  }

  lemma NothingRun(sv: Server, steps: seq<Step>)
    requires WellFormed(sv.store) && !sv.failed
    ensures CanRun(sv, steps[..0]) && RunSteps(sv, steps[..0]) == sv && LoggedEvents(sv, steps[..0]) == []
    ensures PossibleRun(sv.store, []) && AllOwed(sv.store, []) == []
  {
    assert steps[..0] == [];
  }

  /**
   Crash recovery, end to end. A server runs on a log from which its keyspace can be
   recovered at rho, over some baseline: an empty log and an empty disk, a snapshot, or what
   earlier runs left. It crashes after any run without hazards, keeping at least the synced
   bytes. Then replaying what is left, at rho, gives the live keyspace of the run that
   survived, without its dead keys.
   */
  lemma CrashRecovery(sv: Server, steps: seq<Step>, n: nat, base: Store, rho: int) returns (j: nat, kept: seq<Event>)
    requires Sound(sv) && FullySynced(sv) && CanRun(sv, steps) && Loggable(sv, steps)
    requires RunSteps(sv, steps).wal.synced <= n <= |RunSteps(sv, steps).wal.file|
    requires WellFormed(base) && RecoversTo(rho, base, sv.wal.records, sv.store)
    requires PossibleRun(sv.store, LoggedEvents(sv, steps)) && HazardFree(rho, sv.store, LoggedEvents(sv, steps))
    ensures !Damaged(RunSteps(sv, steps).wal.file[..n]) && Survives(sv, steps, n, j, kept)
    ensures RecoversTo(rho, base, Delivered(RunSteps(sv, steps).wal.file[..n]), Final(sv.store, kept))
  {
    hide Delivered, Damaged, CanRun, RunSteps, LoggedEvents, AllOwed, PossibleRun, HazardFree, RecoversTo, Final;
    j, kept := CrashKeeps(sv, steps, n);
    MoreRecovers(rho, base, sv.wal.records, sv.store, kept);
  }

  /** Replaying `recs` over `base` at rho shows the keys that are alive in `live` at rho. */
  ghost predicate RecoversTo(rho: int, base: Store, recs: seq<Command>, live: Store)
    requires WellFormed(base)
  {
    Purge(Replay(Always(rho, |recs|), base, recs), rho) == Purge(live, rho)
  }

  /** A log that recovers the start of a run recovers its end once the run's records are added. */
  lemma MoreRecovers(rho: int, base: Store, recs: seq<Command>, s: Store, es: seq<Event>)
    requires WellFormed(base) && WellFormed(s) && PossibleRun(s, es) && HazardFree(rho, s, es)
    requires RecoversTo(rho, base, recs, s)
    ensures RecoversTo(rho, base, recs + AllOwed(s, es), Final(s, es))
  {
    hide AllOwed, PossibleRun, HazardFree, Final, Replay, Purge;
    var owed, r := AllOwed(s, es), Replay(Always(rho, |recs|), base, recs);
    RecoveryExact(rho, r, s, es);
    assert RecoversAt(rho, r, s, es, |es|);
    assert es[..|es|] == es;
    assert Always(rho, |recs + owed|) == Always(rho, |recs|) + Always(rho, |owed|);
    ReplayAppend(Always(rho, |recs|), Always(rho, |owed|), base, recs, owed);
  }

  /** The events of a prefix of the run come first among the events of the run. */
  lemma {:induction false} LoggedPrefix(sv: Server, steps: seq<Step>, i: nat)
    requires WellFormed(sv.store) && CanRun(sv, steps) && i <= |steps| && CanRun(sv, steps[..i])
    ensures LoggedEvents(sv, steps[..i]) <= LoggedEvents(sv, steps)
    decreases |steps|
  {
    hide After, Next, Owes, Fits, Possible;
    if i > 0 && !sv.failed {
      assert steps[..i][1..] == steps[1..][..i - 1] && steps[..i][0] == steps[0];
      AfterWellFormed(sv, steps[0]);
      LoggedPrefix(After(sv, steps[0]), steps[1..], i - 1);
    }
  }

  // ---- the hypotheses together ---------------------------------------------

  /** A first server on an empty disk, and its first command: SET k v at time 0, written and synced. */
  const FIRST: Server := Server(EMPTY, WalState(KAlways, true, [], 0, 0, false, 0, [], None), true, false, false)
  const FIRST_SET: Event := Exec(0, [], ["SET", "k", "v"])

  lemma FirstSetOwes()
    ensures WellFormed(EMPTY) && Possible(EMPTY, FIRST_SET) && Fits(EMPTY, FIRST_SET)
    ensures Owes(EMPTY, FIRST_SET) == [["SET", "k", "v"]]
    ensures !Read(FIRST_SET.cmd).Stop?
  {
    hide Upper, VerbOf, OpOf, Apply;
    WellFormedMeans(EMPTY);
    ReadSet("k", "v");
    OwedKeyed(0, [], EMPTY, SET, ["SET", "k", "v"], "k", Set("v", false, false, None));
  }

  lemma FirstSetRuns()
    ensures WellFormed(FIRST.store) && CanRun(FIRST, [Do(FIRST_SET, [Written(true)])])
    ensures RunSteps(FIRST, [Do(FIRST_SET, [Written(true)])]).wal ==
            FIRST.wal.(file := Encode(["SET", "k", "v"]), synced := |Encode(["SET", "k", "v"])|,
                       records := [["SET", "k", "v"]])
    ensures !RunSteps(FIRST, [Do(FIRST_SET, [Written(true)])]).failed
    ensures LoggedEvents(FIRST, [Do(FIRST_SET, [Written(true)])]) == [FIRST_SET]
  {
    hide Encode, Next, Owes, Possible, Fits, Read;
    FirstSetOwes();
    var st := Do(FIRST_SET, [Written(true)]);
    AfterWellFormed(FIRST, st);
    assert [st][1..] == [];
    var none: Bytes := [];
    assert none + Encode(["SET", "k", "v"]) == Encode(["SET", "k", "v"]);
  }

  /** The hypotheses of the durability results are met, for one, by the first command of a new server. */
  lemma DurabilityApplies()
    ensures var steps := [Do(FIRST_SET, [Written(true)])];
            && Sound(FIRST) && FullySynced(FIRST) && CanRun(FIRST, steps)
            && FullySynced(RunSteps(FIRST, steps)) && Loggable(FIRST, steps)
            && Delivered(RunSteps(FIRST, steps).wal.file) == [["SET", "k", "v"]]
  {
    hide Encode, Next, Owes, Possible, Fits, RunSteps, CanRun, LoggedEvents, Delivered;
    BootSound(KAlways);
    FirstSetOwes();
    FirstSetRuns();
    var recs := [["SET", "k", "v"]];
    assert [FIRST_SET][1..] == [];
    assert AllOwed(EMPTY, [FIRST_SET]) == recs;
    assert [] + recs == recs;
    EncodeAllOne(recs[0]);
    CutLogDelivers(recs, EncodeAll(recs));
    CompleteInIsLargest(recs, |EncodeAll(recs)|, 1);
    assert recs[..1] == recs;
  }
}
