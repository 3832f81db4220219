/** Start-up: the snapshot is the baseline, then the log is replayed, and only then is logging armed. */
module Boot {
  import opened Base
  import opened WalFormat
  import opened Keyspace
  import opened Execution
  import opened Wal
  import opened LogFiles
  import opened Server
  import opened Snapshot
  import opened Dispatcher
  import Db
  import Expiry

  /** The keyspace a snapshot stands for; nothing when there is no snapshot. */
  function Baseline(snapshot: Option<Bytes>): Store
    requires snapshot.Some? ==> Load(snapshot.value).Got?
  {
    if snapshot.Some? then RestoreAll(EMPTY, Load(snapshot.value).value) else EMPTY
  }

  // ---- which snapshots are safe to start from ------------------------------

  /** The value the last entry for a key gives it. */
  function LastValue(es: seq<Entry>, k: Bytes): Option<Value> {
    if es == [] then None
    else if es[|es| - 1].key == k then Some(es[|es| - 1].value)
    else LastValue(es[..|es| - 1], k)
  }

  /** No key is left with an empty list. */
  ghost predicate NoEmptyList(es: seq<Entry>) {
    forall k :: LastValue(es, k) != Some(List([]))
  }

  /** Restoring gives every key its last value, and a TTL only to keys that have one. */
  lemma {:induction false} RestoredValue(es: seq<Entry>, k: Bytes)
    ensures At(RestoreAll(EMPTY, es), k).value == LastValue(es, k)
    ensures At(RestoreAll(EMPTY, es), k).deadline.Some? ==> LastValue(es, k).Some?
    decreases |es|
  {
    if es != [] {
      var init := es[..|es| - 1];
      assert es == init + [es[|es| - 1]];
      RestoredValue(init, k);
      RestoreSnoc(EMPTY, init, es[|es| - 1]);
    }
  }

  /**
   load_snapshot accepts a list of length zero, which the server never stores. Exactly the
   files without one give a keyspace that satisfies the invariant the handlers rely on.
   */
  lemma LoadedWellFormed(es: seq<Entry>)
    ensures WellFormed(RestoreAll(EMPTY, es)) <==> NoEmptyList(es)
  {
    forall k
      ensures CellOk(At(RestoreAll(EMPTY, es), k)) <==> LastValue(es, k) != Some(List([]))
    {
      RestoredValue(es, k);
    }
    assert NoEmptyList(es) ==> forall k :: CellOk(At(RestoreAll(EMPTY, es), k));
  }

  /** A file that loads although it stores an empty list. */
  lemma EmptyListAccepted()
    ensures var es := [Entry("k", List([]), None)];
            && AllTimed(es) && Load(Save(es)) == Got(es, [])
            && !WellFormed(RestoreAll(EMPTY, es))
  {
    hide Load, Save, RestoreAll;
    var es := [Entry("k", List([]), None)];
    SaveLoad(es);
    LoadedWellFormed(es);
    assert LastValue(es, "k") == Some(List([]));
  }

  /** The snapshot, when it loads at all, stores no empty list. */
  ghost predicate GoodSnapshot(snapshot: Option<Bytes>) {
    snapshot.Some? && Load(snapshot.value).Got? ==> NoEmptyList(Load(snapshot.value).value)
  }

  /** A saved snapshot is a good one, and stands for the keyspace that was saved. */
  lemma SavedIsGood(s: Store, order: seq<Bytes>)
    requires WellFormed(s) && StorableStore(s) && Commands.Enumerates(order, s.db.Keys)
    requires (forall k :: k in order ==> k in s.db) && AllTimed(EntriesOf(s, order))
    ensures var file := Save(EntriesOf(s, order));
            GoodSnapshot(Some(file)) && Load(file).Got? && Baseline(Some(file)) == s
  {
    hide Load, Save;
    SnapshotRoundTrip(s, order);
    LoadedWellFormed(Load(Save(EntriesOf(s, order))).value);
  }

  /** How a start ends; only the last keeps a server. */
  datatype Verdict = IoFailed | BadSnapshot | EmptyListStored | CorruptLog | Started

  /** The verdict when no I/O fails, as far as the files decide it: a damaged log may or may not be noticed. */
  ghost predicate Decides(snapshot: Option<Bytes>, file: Bytes, v: Verdict) {
    match v
    case IoFailed => false
    case BadSnapshot => snapshot.Some? && Load(snapshot.value).Bad?
    case EmptyListStored => Loads(snapshot) && !GoodSnapshot(snapshot)
    case CorruptLog => Loads(snapshot) && GoodSnapshot(snapshot) && Damaged(file)
    case Started => Loads(snapshot) && GoodSnapshot(snapshot) && !Refused(file)
  }

  predicate Loads(snapshot: Option<Bytes>) {
    snapshot.Some? ==> Load(snapshot.value).Got?
  }

  /**
   Boots over the files found on disk. On success the keyspace is the baseline with the
   delivered records replayed; a log that was cut anywhere has become a clean one, and never
   keeps the server from starting; and an I/O failure is reported exactly when a call failed.
   The source also goes on with a snapshot that stores an empty list; here such a start ends
   with a verdict of its own.
   */
  method Start(policy: FsyncPolicy, snapshot: Option<Bytes>, log: LogFile, clock: Clock)
    returns (verdict: Verdict, server: CommandDispatcher?, delivered: seq<Command>, ghost clocks: seq<int>)
    // What a start-up finds in the file is what is on disk.
    requires log.synced == |log.bytes|
    modifies log, clock
    ensures server != null <==> verdict == Started
    ensures verdict == IoFailed <==> log.failures > old(log.failures)
    ensures verdict != IoFailed ==> Decides(snapshot, old(log.bytes), verdict)
    ensures forall recs :: CutFrom(old(log.bytes), recs) ==> verdict != CorruptLog
    ensures server != null ==>
              && server.Valid() && server.wal.log == log && WellFormed(Baseline(snapshot))
              && |clocks| == |delivered| && clock.shown == old(clock.shown) + clocks
              && delivered == Delivered(old(log.bytes))
              && server.View().store == Replay(clocks, Baseline(snapshot), delivered)
              && server.logging && !server.failed
              && forall recs :: CutFrom(old(log.bytes), recs) ==>
                   && delivered == recs[..CompleteIn(recs, |old(log.bytes)|)]
                   && Sound(server.View())
  {
    hide Sound, WellFormed, NoEmptyList, Delivered, Damaged, Refused, EncodeAll, CompleteIn, CutFrom;
    hide Replay, Load, RestoreAll, Expiry.Consistent, Expiry.TableOf;
    server, delivered, clocks := null, [], [];
    var directory := log.Open();
    if !directory {
      return IoFailed, null, [], [];
    }
    var db := new Db.Db();
    var expiry := new Expiry.ExpiryManager();
    var wal := new Wal(policy, log, []);
    var d := new CommandDispatcher(db, expiry, wal);
    var refusal := LoadBaseline(db, expiry, snapshot);
    if refusal.Some? {
      return refusal.value, null, [], [];
    }
    var st;
    st, delivered, clocks := RecoverLog(d, clock);
    if st != KOk {
      return if st == KCorrupt then CorruptLog else IoFailed, null, delivered, [];
    }
    verdict, server := Started, d;
  }

  /** Replays the log over the baseline, opens it for appending, and arms logging. */
  method RecoverLog(d: CommandDispatcher, clock: Clock)
    returns (st: Status, delivered: seq<Command>, ghost clocks: seq<int>)
    requires d.Valid() && WellFormed(d.Current()) && !d.logging && !d.failed
    requires !d.wal.open && !d.wal.dirty && d.wal.log.synced == |d.wal.log.bytes|
    modifies d, d.db, d.expiry, d.wal, d.wal.log, clock
    ensures d.wal.log.failures == old(d.wal.log.failures) + if st == KIoError then 1 else 0
    ensures st == KCorrupt ==> Damaged(old(d.wal.log.bytes))
    ensures st == KOk ==>
              && d.Valid() && d.logging && !d.failed
              && |clocks| == |delivered| && clock.shown == old(clock.shown) + clocks
              && !Refused(old(d.wal.log.bytes)) && delivered == Delivered(old(d.wal.log.bytes))
              && d.Current() == Replay(clocks, old(d.Current()), delivered)
    ensures forall recs :: CutFrom(old(d.wal.log.bytes), recs) ==>
              && st != KCorrupt
              && (st == KOk ==>
                    && delivered == recs[..CompleteIn(recs, |old(d.wal.log.bytes)|)]
                    && Sound(d.View()))
  {
    hide Sound, WellFormed, Delivered, Damaged, Refused, EncodeAll, CompleteIn, CutFrom, Replay;
    hide Expiry.Consistent, Expiry.TableOf;
    clocks := [];
    ghost var s, file := d.Current(), d.wal.log.bytes;
    st, delivered := d.wal.Replay();
    if st != KOk {
      return st, delivered, [];
    }
    clocks := d.ReplayLog(clock, delivered);
    st := d.wal.OpenForAppend();
    if st != KOk {
      return st, delivered, [];
    }
    d.logging := true;
    ReplayKeepsWellFormed(clocks, s, delivered);
    forall recs | CutFrom(file, recs)
      ensures Sound(d.View())
    {
      CleanLogSound(d.View());
    }
  }

  /** Loads the snapshot, if there is one, into empty objects. */
  method LoadBaseline(db: Db.Db, expiry: Expiry.ExpiryManager, snapshot: Option<Bytes>)
    returns (refusal: Option<Verdict>)
    requires expiry.Valid() && db.entries == map[] && expiry.Table() == map[]
    modifies db, expiry
    ensures expiry.Valid()
    ensures if !Loads(snapshot) then refusal == Some(BadSnapshot)
            else if !GoodSnapshot(snapshot) then refusal == Some(EmptyListStored)
            else
              && refusal == None && WellFormed(Baseline(snapshot))
              && Store(db.entries, expiry.Table()) == Baseline(snapshot)
  {
    hide WellFormed, NoEmptyList, Load, RestoreAll, Expiry.Consistent, Expiry.TableOf;
    EmptyWellFormed();
    if snapshot.Some? {
      var loaded := LoadSnapshot(db, expiry, snapshot.value);
      if !loaded {
        return Some(BadSnapshot);
      }
      LoadedWellFormed(Load(snapshot.value).value);
      EmptyListSeen(Load(snapshot.value).value);
      if exists k :: k in db.entries && db.entries[k] == List([]) {
        return Some(EmptyListStored);
      }
    }
    refusal := None;
  }

  /** What a scan of the restored entries finds. */
  lemma EmptyListSeen(es: seq<Entry>)
    ensures var db := RestoreAll(EMPTY, es).db;
            (exists k :: k in db && db[k] == List([])) <==> !NoEmptyList(es)
  {
    hide RestoreAll, LastValue;
    var db := RestoreAll(EMPTY, es).db;
    if k :| k in db && db[k] == List([]) {
      RestoredValue(es, k);
    }
    if !NoEmptyList(es) {
      var k :| LastValue(es, k) == Some(List([]));
      RestoredValue(es, k);
      assert k in db && db[k] == List([]);
    }
  }

  lemma EmptyWellFormed()
    ensures WellFormed(EMPTY)
  {
  }

  lemma ReplayKeepsWellFormed(clocks: seq<int>, s: Store, recs: seq<Command>)
    requires WellFormed(s) && |clocks| == |recs|
    ensures WellFormed(Replay(clocks, s, recs))
  {
  }
}
