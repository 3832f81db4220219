/**
 Any number of restarts. Each life of the server begins with what replaying the log
 left by the lives before gives, each record at its own clock reading, appends to that
 log, and ends in a crash that keeps at least the synced bytes of the file.
 */
module Restarts {
  import opened Base
  import opened WalFormat
  import opened Keyspace
  import opened Execution
  import opened Recovery
  import opened Wal
  import opened Server
  import opened Durability

  /** A start-up: when its replay began and was done, and the clock reading each record met. */
  datatype StartUp = StartUp(began: int, done: int, clocks: seq<int>)

  /** The start-up replays so many records, each in its time. */
  predicate Replays(up: StartUp, n: nat) {
    up.began <= up.done && |up.clocks| == n && AllFrom(up.began, up.clocks) && AllBy(up.clocks, up.done)
  }

  /** One life: how it began, what it did, and how much of the file its end left. */
  datatype Life = Life(up: StartUp, steps: seq<Step>, left: nat)

  /** What stays the same over all lives: the fsync policy and the snapshot, if any, loaded at every start-up. */
  datatype Disk = Disk(policy: FsyncPolicy, base: Store)

  /** The server a start-up over a clean log gives. */
  ghost function Booted(disk: Disk, recs: seq<Command>, up: StartUp): Server
    requires WellFormed(disk.base) && Replays(up, |recs|)
  {
    var file := EncodeAll(recs);
    Server(Replay(up.clocks, disk.base, recs),
           WalState(disk.policy, true, file, |file|, 0, false, 0, recs, None), true, false, false)
  }

  lemma BootedSound(disk: Disk, recs: seq<Command>, up: StartUp)
    requires WellFormed(disk.base) && Replays(up, |recs|)
    ensures Sound(Booted(disk, recs, up)) && FullySynced(Booted(disk, recs, up))
  {
    hide EncodeAll, Replay;
    CleanLogSound(Booted(disk, recs, up));
  }

  /** Something a server can do and leave: any run within the limits of the log, and any crash. */
  ghost predicate CanLive(sv: Server, life: Life)
    requires WellFormed(sv.store)
  {
    && CanRun(sv, life.steps) && Loggable(sv, life.steps)
    && RunSteps(sv, life.steps).wal.synced <= life.left <= |RunSteps(sv, life.steps).wal.file|
  }

  ghost predicate Lived(disk: Disk, lives: seq<Life>)
    requires WellFormed(disk.base)
    decreases |lives|, 0
  {
    lives == [] ||
    var n := |lives| - 1;
    && Lived(disk, lives[..n]) && Replays(lives[n].up, |LogOf(disk, lives[..n])|)
    && CanLive(Booted(disk, LogOf(disk, lives[..n]), lives[n].up), lives[n])
  }

  /** The records that can be read back after all these lives. */
  ghost function LogOf(disk: Disk, lives: seq<Life>): seq<Command>
    requires WellFormed(disk.base) && Lived(disk, lives)
    decreases |lives|, 1
  {
    if lives == [] then []
    else
      var n := |lives| - 1;
      var sv := Booted(disk, LogOf(disk, lives[..n]), lives[n].up);
      Delivered(RunSteps(sv, lives[n].steps).wal.file[..lives[n].left])
  }

  /** The server the last life began with. */
  ghost function LastServer(disk: Disk, lives: seq<Life>): (sv: Server)
    requires WellFormed(disk.base) && Lived(disk, lives) && lives != []
    ensures WellFormed(sv.store) && CanLive(sv, lives[|lives| - 1])
  {
    var n := |lives| - 1;
    Booted(disk, LogOf(disk, lives[..n]), lives[n].up)
  }

  /** The part of the last life that survived its end. */
  ghost function Surviving(disk: Disk, lives: seq<Life>): (kept: (nat, seq<Event>))
    requires WellFormed(disk.base) && Lived(disk, lives) && lives != []
    ensures var last := lives[|lives| - 1];
            Survives(LastServer(disk, lives), last.steps, last.left, kept.0, kept.1)
  {
    var n := |lives| - 1;
    var sv, last := LastServer(disk, lives), lives[n];
    assert exists j, kept :: Survives(sv, last.steps, last.left, j, kept) by {
      BootedSound(disk, LogOf(disk, lives[..n]), last.up);
      var j, kept := CrashKeeps(sv, last.steps, last.left);
    }
    var j, kept :| Survives(sv, last.steps, last.left, j, kept);
    (j, kept)
  }

  /** The keyspace of the last life after the part of it that survived. */
  ghost function EndOf(disk: Disk, lives: seq<Life>): (s: Store)
    requires WellFormed(disk.base) && Lived(disk, lives)
    ensures WellFormed(s)
  {
    if lives == [] then disk.base
    else Final(LastServer(disk, lives).store, Surviving(disk, lives).1)
  }

  /** No event of any life is a hazard for a recovery at rho. */
  ghost predicate SafeAt(disk: Disk, rho: int, lives: seq<Life>)
    requires WellFormed(disk.base) && Lived(disk, lives)
    decreases |lives|
  {
    lives == [] ||
    var n := |lives| - 1;
    var sv := LastServer(disk, lives);
    && SafeAt(disk, rho, lives[..n])
    && PossibleRun(sv.store, LoggedEvents(sv, lives[n].steps))
    && HazardFree(rho, sv.store, LoggedEvents(sv, lives[n].steps))
  }

  /** The last life had begun by `ms`. */
  predicate BegunBy(lives: seq<Life>, ms: int) {
    lives == [] || lives[|lives| - 1].up.done <= ms
  }

  /** Start-ups follow each other, and each found a log without hazards for the time it was done. */
  ghost predicate SafeRestarts(disk: Disk, lives: seq<Life>)
    requires WellFormed(disk.base) && Lived(disk, lives)
    decreases |lives|
  {
    lives == [] ||
    var n := |lives| - 1;
    && SafeRestarts(disk, lives[..n])
    && BegunBy(lives[..n], lives[n].up.began)
    && SafeAt(disk, lives[n].up.done, lives[..n])
  }

  /**
   However often the server crashes and is restarted, a start-up finds the keyspace of the
   last life after the part of it that survived, without the keys that are dead by the time it
   is done: what earlier lives logged is not disturbed by having been cut, replayed, evicted or
   overtaken by the clock in between. Surviving is at least everything up to any fully synced
   point. A start-up at a single clock reading, over keys all alive then, has no dead keys either.
   */
  lemma RestartsRecover(disk: Disk, up: StartUp, lives: seq<Life>)
    requires WellFormed(disk.base) && Lived(disk, lives) && SafeRestarts(disk, lives)
    requires BegunBy(lives, up.began) && SafeAt(disk, up.done, lives) && Replays(up, |LogOf(disk, lives)|)
    ensures Purge(Booted(disk, LogOf(disk, lives), up).store, up.done) == Purge(EndOf(disk, lives), up.done)
    ensures up.began == up.done && AllAlive(disk.base, up.done) ==>
            Booted(disk, LogOf(disk, lives), up).store == Purge(EndOf(disk, lives), up.done)
  {
    hide Purge, AllAlive, Tracks, Booted, Lived, LogOf, EndOf, SafeAt, SafeRestarts;
    RestartsTrack(disk, up, lives);
    StartUpShows(disk, up, LogOf(disk, lives), EndOf(disk, lives));
  }

  lemma {:induction false} RestartsTrack(disk: Disk, up: StartUp, lives: seq<Life>)
    requires WellFormed(disk.base) && Lived(disk, lives) && SafeRestarts(disk, lives)
    requires BegunBy(lives, up.began) && SafeAt(disk, up.done, lives) && Replays(up, |LogOf(disk, lives)|)
    ensures Tracks(up.began, up.done, Booted(disk, LogOf(disk, lives), up).store, EndOf(disk, lives))
    decreases |lives|
  {
    hide PossibleRun, Final, AllOwed, HazardFree, Replay, Tracks, WellFormed, AllFrom, AllBy;
    hide Lived, LogOf, EndOf, SafeAt, SafeRestarts, Surviving, LastServer, EncodeAll;
    if lives == [] {
      NothingToReplay(disk, up);
    } else {
      var n := |lives| - 1;
      var before, first := lives[..n], lives[n].up;
      LastLife(disk, up.done, lives);
      var recs := LogOf(disk, before);
      SoonerReplays(up, |LogOf(disk, lives)|, |recs|);
      RestartsTrack(disk, first, before);
      RestartsTrack(disk, Sooner(up, |recs|), before);
      OneMoreLife(disk.base, recs, first, up, EndOf(disk, before), LastServer(disk, lives).store,
                  Surviving(disk, lives).1);
    }
  }

  lemma SoonerReplays(up: StartUp, n: nat, m: nat)
    requires Replays(up, n) && m <= n
    ensures Replays(Sooner(up, m), m)
    ensures up.clocks == up.clocks[..m] + up.clocks[m..]
    ensures AllFrom(up.began, up.clocks[m..]) && AllBy(up.clocks[m..], up.done)
  {
  }

  /** What the last of several lives adds to those before it. */
  lemma LastLife(disk: Disk, rho: int, lives: seq<Life>)
    requires WellFormed(disk.base) && Lived(disk, lives) && lives != []
    requires SafeRestarts(disk, lives) && SafeAt(disk, rho, lives)
    ensures var before, first := lives[..|lives| - 1], lives[|lives| - 1].up;
            && Lived(disk, before) && SafeRestarts(disk, before) && SafeAt(disk, rho, before)
            && BegunBy(before, first.began) && SafeAt(disk, first.done, before)
            && Replays(first, |LogOf(disk, before)|)
            && LastServer(disk, lives).store == Replay(first.clocks, disk.base, LogOf(disk, before))
    ensures var recs, kept := LogOf(disk, lives[..|lives| - 1]), Surviving(disk, lives).1;
            var start := LastServer(disk, lives).store;
            && PossibleRun(start, kept) && HazardFree(rho, start, kept)
            && LogOf(disk, lives) == recs + AllOwed(start, kept) && EndOf(disk, lives) == Final(start, kept)
  {
    hide PossibleRun, AllOwed, HazardFree, Replay, CanRun, RunSteps, LoggedEvents, Delivered, Final;
  }

  /** The first n clock readings of a start-up. */
  function Sooner(up: StartUp, n: nat): StartUp
    requires n <= |up.clocks|
  {
    StartUp(up.began, up.done, up.clocks[..n])
  }

  /**
   A life that began in `first` over a log that recovers `live`, and of which `kept` survived: a
   later start-up that follows `live` on the old part of the log follows the life on all of it.
   */
  lemma {:induction false} OneMoreLife(base: Store, recs: seq<Command>, first: StartUp, up: StartUp, live: Store,
                                       start: Store, kept: seq<Event>)
    requires WellFormed(base) && WellFormed(start) && Replays(first, |recs|) && first.done <= up.began
    requires start == Replay(first.clocks, base, recs) && PossibleRun(start, kept) && HazardFree(up.done, start, kept)
    requires Replays(up, |recs| + |AllOwed(start, kept)|)
    requires Tracks(first.began, first.done, start, live)
    requires Tracks(up.began, up.done, Replay(up.clocks[..|recs|], base, recs), live)
    ensures Tracks(up.began, up.done, Replay(up.clocks, base, recs + AllOwed(start, kept)), Final(start, kept))
  {
    hide PossibleRun, Final, AllOwed, HazardFree, Replay, Purge, Tracks, WellFormed, AllFrom, AllBy;
    var r, rest := Replay(up.clocks[..|recs|], base, recs), up.clocks[|recs|..];
    TracksView(first.began, first.done, up.began, start, live);
    SameView(up.began, up.done, r, live, start);
    SoonerReplays(up, |up.clocks|, |recs|);
    ReplayTracks(up.began, up.done, rest, r, start, kept);
    ReplayAppend(up.clocks[..|recs|], rest, base, recs, AllOwed(start, kept));
  }

  /** What following the live store over a start-up means once it is done. */
  lemma StartUpShows(disk: Disk, up: StartUp, recs: seq<Command>, live: Store)
    requires WellFormed(disk.base) && Replays(up, |recs|)
    requires Tracks(up.began, up.done, Booted(disk, recs, up).store, live)
    ensures Purge(Booted(disk, recs, up).store, up.done) == Purge(live, up.done)
    ensures up.began == up.done && AllAlive(disk.base, up.done) ==>
            Booted(disk, recs, up).store == Purge(live, up.done)
  {
    hide Purge, Tracks, Replay, AllAlive, EncodeAll;
    var r := Booted(disk, recs, up).store;
    TracksView(up.began, up.done, up.done, r, live);
    if up.began == up.done && AllAlive(disk.base, up.done) {
      assert up.clocks == Always(up.done, |recs|);
      ReplayAlive(up.done, disk.base, recs);
      PurgeOfAlive(r, up.done);
    }
  }

  lemma NothingToReplay(disk: Disk, up: StartUp)
    requires WellFormed(disk.base) && Lived(disk, []) && Replays(up, |LogOf(disk, [])|)
    ensures Tracks(up.began, up.done, Booted(disk, LogOf(disk, []), up).store, EndOf(disk, []))
  {
  }

  lemma SameView(lo: int, hi: int, r: Store, s: Store, t: Store)
    requires Tracks(lo, hi, r, s) && Purge(s, lo) == Purge(t, lo)
    ensures Tracks(lo, hi, r, t)
  {
  }
}
