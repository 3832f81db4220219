/**
 Recovery: replaying the log of a run against a later clock gives the live
 keyspace without the keys that are dead by then, exactly when no logged command
 relied on a key that is alive when it runs and dead at recovery.
 */
module Recovery {
  import opened Base
  import opened Decimal
  import opened RespWriter
  import opened Keyspace
  import opened Commands
  import opened Laws
  import opened Execution
  import opened Logging

  // ---- one cell ------------------------------------------------------------

  /** A replayed cell follows the live one: equal, or already gone when the live one is dead at rho. */
  predicate Follows(x: Cell, c: Cell, rho: int) {
    x == c || (Lapsed(c, rho) && x == GONE)
  }

  /** The deadline a command arms fits the int64 the log stores it in. */
  predicate DeadlineFits(now: int, c: Cell, op: KeyOp)
    requires CellOk(c)
  {
    var d := CellStep(now, c, op).0.deadline;
    d.Some? ==> InI64(d.value)
  }

  /**
   A command whose replay goes wrong: it succeeds on a key whose deadline is behind the
   recovery clock, and either builds on the value, or disarms or postpones that deadline.
   */
  predicate CellHazard(now: int, rho: int, c: Cell, op: KeyOp) {
    && Lapsed(c, rho)
    && c.value.Some?
    && match op
       case IncrBy(delta) => Increments(c, delta)
       case Push(_, _) => !HoldsString(c.value)
       case Persist => true
       case Expire(n, unit) => n > 0 && now + n * unit > rho
       case ExpireAt(at) => at > now && at > rho
       case _ => false
  }

  /** What replaying a command's records does to a cell. */
  function Redo(clocks: seq<int>, x: Cell, now: int, c: Cell, cmd: Command, k: Bytes, op: KeyOp): Cell
    requires CellOk(x) && CellOk(c)
    requires |clocks| == |KeyedRecords(now, c, cmd, k, op)|
  {
    var c' := CellStep(now, c, op).0;
    if |clocks| == 0 then x
    else
      var seen := Lapse(x, clocks[0]);
      if op.Set? then
        var plain := Cell(Some(Str(op.value)), None);
        if c'.deadline.Some? then CellStep(clocks[1], plain, ExpireAt(c'.deadline.value)).0 else plain
      else if op.Expire? || op.ExpireAt? then
        if c'.deadline.Some? then CellStep(clocks[0], seen, ExpireAt(c'.deadline.value)).0 else GONE
      else CellStep(clocks[0], seen, op).0
  }

  predicate AllBy(clocks: seq<int>, rho: int) {
    forall i :: 0 <= i < |clocks| ==> clocks[i] <= rho
  }

  /** One command on one cell: without a hazard, the replayed cell goes on following the live one. */
  lemma CellSimulation(clocks: seq<int>, x: Cell, now: int, rho: int, c: Cell, cmd: Command, k: Bytes, op: KeyOp)
    requires CellOk(x) && CellOk(c) && Follows(x, c, rho) && AllBy(clocks, rho)
    requires |clocks| == |KeyedRecords(now, c, cmd, k, op)|
    requires !CellHazard(now, rho, c, op)
    ensures Follows(Redo(clocks, x, now, c, cmd, k, op), CellStep(now, c, op).0, rho)
  {
    hide ToString, Bulk, Integer, Array, ParseI64, InI64, Slice;
    if |clocks| == 0 {
      UnloggedUnchanged(now, c, cmd, k, op);
    } else {
      assert clocks[0] <= rho;
      if |clocks| == 2 {
        assert clocks[1] <= rho;
      }
    }
  }

  /** Guaranteed by argument checking: a push has values, an increment is an int64, time spans are positive. */
  predicate Wanted(op: KeyOp) {
    && (op.Push? ==> op.values != [])
    && (op.IncrBy? ==> InI64(op.delta))
    && (op.Expire? ==> op.unit > 0)
    && (op.Set? && op.expireMs.Some? ==> op.expireMs.value > 0)
  }

  lemma OpsAreWanted(cmd: Command)
    requires Read(cmd).Run? && Read(cmd).op.Keyed?
    ensures Wanted(Read(cmd).op.op)
  {
    hide Upper, VerbOf, ParseI64, ScanSetOptions, WrongArity;
    if |cmd| >= 3 {
      SetSpansPositive(cmd, 3, false, false, None);
    }
  }

  lemma {:induction false} SetSpansPositive(cmd: Command, i: nat, nx: bool, xx: bool, ms: Option<int>)
    requires ms.Some? ==> ms.value > 0
    ensures var r := ScanSetOptions(cmd, i, nx, xx, ms);
            r.Options? && r.expireMs.Some? ==> r.expireMs.value > 0
    decreases |cmd| - i
  {
    hide ParseI64;
    if i < |cmd| {
      SetSpansPositive(cmd, i + 1, true, xx, ms);
      SetSpansPositive(cmd, i + 1, nx, true, ms);
      if i + 1 < |cmd| && ParseI64(cmd[i + 1]).Some? && ParseI64(cmd[i + 1]).value > 0 {
        var n := ParseI64(cmd[i + 1]).value;
        SetSpansPositive(cmd, i + 2, nx, xx, Some(n * 1000));
        SetSpansPositive(cmd, i + 2, nx, xx, Some(n));
      }
    }
  }

  /** With a hazard, at one recovery clock, it provably does not. */
  lemma CellHazardBreaks(clocks: seq<int>, now: int, rho: int, c: Cell, cmd: Command, k: Bytes, op: KeyOp)
    requires CellOk(c) && (forall i :: 0 <= i < |clocks| ==> clocks[i] == rho)
    requires |clocks| == |KeyedRecords(now, c, cmd, k, op)|
    requires CellHazard(now, rho, c, op)
    requires Wanted(op)
    ensures Redo(clocks, Lapse(c, rho), now, c, cmd, k, op) != Lapse(CellStep(now, c, op).0, rho)
  {
  }

  /** The records of a one-key command, replayed, act on that key's cell alone. */
  lemma ReplayKeyed(clocks: seq<int>, r: Store, now: int, c: Cell, verb: Verb, cmd: Command, k: Bytes, op: KeyOp)
    requires WellFormed(r) && CellOk(c) && Read(cmd) == Run(verb, Keyed(k, op))
    requires |clocks| == |KeyedRecords(now, c, cmd, k, op)|
    requires DeadlineFits(now, c, op)
    ensures CellOk(At(r, k))
    ensures Replay(clocks, r, KeyedRecords(now, c, cmd, k, op))
         == Put(r, k, Redo(clocks, At(r, k), now, c, cmd, k, op))
  {
    assert CellOk(At(r, k));
    var recs := KeyedRecords(now, c, cmd, k, op);
    var d := CellStep(now, c, op).0.deadline;
    if recs == [] {
      PutSame(r, k);
    } else if op.Set? {
      ReplaySet(clocks, r, k, op.value, d);
    } else if op.Expire? || op.ExpireAt? {
      ReplayOne(clocks, r, recs);
      if d.Some? {
        ReadDeadline(k, d.value);
        ReplayedKeyed(clocks[0], r, recs[0], PEXPIREAT, k, ExpireAt(d.value));
      } else {
        assert recs[0] == DelRecord(k);
        ReplayedDel(clocks[0], r, k);
      }
    } else if op.Persist? {
      ReplayOne(clocks, r, recs);
      ReadPersist(k);
      ReplayedKeyed(clocks[0], r, recs[0], PERSIST, k, op);
    } else {
      ReplayOne(clocks, r, recs);
      ReplayedKeyed(clocks[0], r, recs[0], verb, k, op);
    }
  }

  lemma ReplaySet(clocks: seq<int>, r: Store, k: Bytes, v: Bytes, d: Option<int>)
    requires WellFormed(r) && (d.Some? ==> InI64(d.value))
    requires |clocks| == |[["SET", k, v]] + DeadlineRecord(k, d)|
    ensures Replay(clocks, r, [["SET", k, v]] + DeadlineRecord(k, d))
         == Put(r, k, if d.Some? then CellStep(clocks[1], Cell(Some(Str(v)), None), ExpireAt(d.value)).0
                      else Cell(Some(Str(v)), None))
  {
    var plain := Cell(Some(Str(v)), None);
    var recs := [["SET", k, v]] + DeadlineRecord(k, d);
    ReadSet(k, v);
    ReplayedKeyed(clocks[0], r, recs[0], SET, k, Set(v, false, false, None));
    if d.None? {
      ReplayOne(clocks, r, recs);
    } else {
      ReplayTwo(clocks, r, recs);
      ReadDeadline(k, d.value);
      var mid := Put(r, k, plain);
      ReplayedKeyed(clocks[1], mid, recs[1], PEXPIREAT, k, ExpireAt(d.value));
      AtPut(r, k, plain, k);
      PutPut(r, k, plain, CellStep(clocks[1], plain, ExpireAt(d.value)).0);
    }
  }

  // ---- one event -----------------------------------------------------------

  /** What changes the keyspace: a command, or an active cycle that evicts `keys`. */
  datatype Event =
    | Exec(now: int, order: seq<Bytes>, cmd: Command)
    | Cycle(now: int, keys: seq<Bytes>)

  /** The event can happen: a real iteration order, or keys whose deadline has passed. */
  ghost predicate Possible(s: Store, e: Event) {
    match e
    case Exec(_, order, _) => Enumerates(order, s.db.Keys)
    case Cycle(now, keys) => EvictsOnce(s, now, keys)
  }

  function Next(s: Store, e: Event): Store
    requires WellFormed(s)
  {
    match e
    case Exec(now, order, cmd) => Perform(now, order, s, cmd).store
    case Cycle(_, keys) => Without(s, Members(keys))
  }

  function Owes(s: Store, e: Event): seq<Command>
    requires WellFormed(s)
  {
    match e
    case Exec(now, order, cmd) => Owed(now, order, s, cmd)
    case Cycle(_, keys) => DelRecords(keys)
  }

  predicate KeyedEvent(e: Event) {
    e.Exec? && Read(e.cmd).Run? && Read(e.cmd).op.Keyed?
  }

  ghost predicate Hazard(rho: int, s: Store, e: Event) {
    KeyedEvent(e) &&
    var op := Read(e.cmd).op;
    CellHazard(e.now, rho, Found(s, e.now, op.key), op.op)
  }

  ghost predicate Fits(s: Store, e: Event)
    requires WellFormed(s)
  {
    KeyedEvent(e) ==>
      var op := Read(e.cmd).op;
      assert CellOk(At(s, op.key));
      DeadlineFits(e.now, Found(s, e.now, op.key), op.op)
  }

  lemma NextWellFormed(s: Store, e: Event)
    requires WellFormed(s) && Possible(s, e)
    ensures WellFormed(Next(s, e))
  {
    match e {
      case Exec(now, order, cmd) => PerformWellFormed(now, order, s, cmd);
      case Cycle(_, keys) => WithoutWellFormed(s, Members(keys));
    }
  }

  /** The replayed store follows the live one key by key. */
  ghost predicate Shadows(r: Store, s: Store, rho: int) {
    forall k :: Follows(At(r, k), At(s, k), rho)
  }

  lemma ShadowsView(r: Store, s: Store, rho: int)
    requires Shadows(r, s, rho)
    ensures Purge(r, rho) == Purge(s, rho)
  {
    forall k
      ensures At(Purge(r, rho), k) == At(Purge(s, rho), k)
    {
      AtPurge(r, rho, k);
      AtPurge(s, rho, k);
      assert Follows(At(r, k), At(s, k), rho);
    }
    SameCells(Purge(r, rho), Purge(s, rho));
  }

  lemma ShadowsWithout(r: Store, s: Store, rho: int, keys: set<Bytes>)
    requires Shadows(r, s, rho)
    ensures Shadows(Without(r, keys), Without(s, keys), rho)
  {
    forall k
      ensures Follows(At(Without(r, keys), k), At(Without(s, keys), k), rho)
    {
      AtWithout(r, keys, k);
      AtWithout(s, keys, k);
      assert Follows(At(r, k), At(s, k), rho);
    }
  }

  lemma ShadowsPut(r: Store, s: Store, rho: int, k: Bytes, x: Cell, c: Cell)
    requires Shadows(r, s, rho) && Follows(x, c, rho)
    ensures Shadows(Put(r, k, x), Put(s, k, c), rho)
  {
    forall j
      ensures Follows(At(Put(r, k, x), j), At(Put(s, k, c), j), rho)
    {
      AtPut(r, k, x, j);
      AtPut(s, k, c, j);
      assert Follows(At(r, j), At(s, j), rho);
    }
  }

  lemma KeyedSimulation(clocks: seq<int>, r: Store, s: Store, rho: int, now: int, order: seq<Bytes>,
                        verb: Verb, cmd: Command, k: Bytes, op: KeyOp)
    requires WellFormed(r) && WellFormed(s) && Shadows(r, s, rho) && AllBy(clocks, rho)
    requires Read(cmd) == Run(verb, Keyed(k, op)) && |clocks| == |Owed(now, order, s, cmd)|
    requires CellOk(Found(s, now, k)) && DeadlineFits(now, Found(s, now, k), op)
    requires !CellHazard(now, rho, Found(s, now, k), op)
    ensures Shadows(Replay(clocks, r, Owed(now, order, s, cmd)), Perform(now, order, s, cmd).store, rho)
  {
    hide CellStep, KeyedRecords, Redo, DeadlineFits, CellHazard;
    assert CellOk(At(s, k));
    var c := Found(s, now, k);
    var e := EvictedAt(s, now, k);
    var recs := KeyedRecords(now, c, cmd, k, op);
    OwedKeyed(now, order, s, verb, cmd, k, op);
    var ca, cb := clocks[..|e|], clocks[|e|..];
    assert clocks == ca + cb && AllBy(cb, rho);
    ReplayAppend(ca, cb, r, DelRecords(e), recs);
    ReplayedDels(ca, r, e);
    var r1, s1 := Without(r, Members(e)), Without(s, Members(e));
    ShadowsWithout(r, s, rho, Members(e));
    WithoutWellFormed(r, Members(e));
    TouchMeans(s, now, k);
    AtPut(s, k, c, k);
    ReplayKeyed(cb, r1, now, c, verb, cmd, k, op);
    assert Follows(At(r1, k), At(s1, k), rho);
    CellSimulation(cb, At(r1, k), now, rho, c, cmd, k, op);
    var c' := CellStep(now, c, op).0;
    ShadowsPut(r1, s1, rho, k, Redo(cb, At(r1, k), now, c, cmd, k, op), c');
    PutPut(s, k, c, c');
  }

  /** Events that only remove keys: what they owe removes the same keys on replay. */
  lemma RemovalSimulation(clocks: seq<int>, r: Store, s: Store, rho: int, e: Event)
    requires WellFormed(r) && WellFormed(s) && Shadows(r, s, rho) && Possible(s, e)
    requires !KeyedEvent(e) && |clocks| == |Owes(s, e)|
    ensures Shadows(Replay(clocks, r, Owes(s, e)), Next(s, e), rho)
  {
    match e {
      case Cycle(_, keys) =>
        ReplayedDels(clocks, r, keys);
        ShadowsWithout(r, s, rho, Members(keys));
      case Exec(now, order, cmd) =>
        if Read(cmd).Run? {
          var verb, op := Read(cmd).verb, Read(cmd).op;
          OpSimulation(clocks, r, s, rho, now, order, verb, cmd, op);
        }
    }
  }

  lemma OpSimulation(clocks: seq<int>, r: Store, s: Store, rho: int, now: int, order: seq<Bytes>,
                     verb: Verb, cmd: Command, op: Op)
    requires WellFormed(r) && WellFormed(s) && Shadows(r, s, rho) && Enumerates(order, s.db.Keys)
    requires Read(cmd) == Run(verb, op) && !op.Keyed? && |clocks| == |Owed(now, order, s, cmd)|
    ensures Shadows(Replay(clocks, r, Owed(now, order, s, cmd)), Perform(now, order, s, cmd).store, rho)
  {
    OwedOther(now, order, s, verb, cmd, op);
    match op {
      case Answer(_) =>
      case DbSize =>
      case Exists(keys) =>
        ExistsLoopMeans(now, s, keys);
        EvictOnlySimulation(clocks, r, s, rho, ExistsLoop(now, s, keys).evicted);
      case Keys(pattern) =>
        KeysLive(now, order, s, pattern);
        EvictOnlySimulation(clocks, r, s, rho, KeysLoop(now, s, Filter(pattern, order)).evicted);
      case Del(keys) =>
        DelSimulation(clocks, r, s, rho, now, verb, cmd, keys);
      case FlushAll =>
        FlushSimulation(clocks, r, s, rho, now, order, verb, cmd);
    }
  }

  lemma EvictOnlySimulation(clocks: seq<int>, r: Store, s: Store, rho: int, keys: seq<Bytes>)
    requires WellFormed(r) && Shadows(r, s, rho) && |clocks| == |DelRecords(keys)|
    ensures Shadows(Replay(clocks, r, DelRecords(keys)), Without(s, Members(keys)), rho)
    ensures DelRecords(keys) + [] == DelRecords(keys)
  {
    ReplayedDels(clocks, r, keys);
    ShadowsWithout(r, s, rho, Members(keys));
  }

  lemma DelSimulation(clocks: seq<int>, r: Store, s: Store, rho: int, now: int, verb: Verb, cmd: Command,
                      keys: seq<Bytes>)
    requires WellFormed(r) && WellFormed(s) && Shadows(r, s, rho) && Read(cmd) == Run(verb, Del(keys))
    requires |clocks| == |DelRecords(DelLoop(now, s, keys).evicted) + DelLogged(now, s, cmd, keys)|
    ensures var d := DelLoop(now, s, keys);
            Shadows(Replay(clocks, r, DelRecords(d.evicted) + DelLogged(now, s, cmd, keys)), d.store, rho)
  {
    hide DelLoop, Without, DelRecords, Shadows, Replay, WellFormed;
    var d := DelLoop(now, s, keys);
    DelLoopMeans(now, s, keys);
    if d.n == 0 {
      EvictOnlySimulation(clocks, r, s, rho, d.evicted);
      NothingElseToDelete(now, s, keys);
    } else {
      var e, m := Members(d.evicted), |d.evicted|;
      var ca, cb := clocks[..m], clocks[m..];
      assert clocks == ca + cb;
      ReplayAppend(ca, cb, r, DelRecords(d.evicted), [cmd]);
      ReplayedDels(ca, r, d.evicted);
      WithoutWellFormed(r, e);
      ReplayOne(cb, Without(r, e), [cmd]);
      DelLoopMeans(cb[0], Without(r, e), keys);
      WithoutTwice(r, e, Members(keys));
      assert e + Members(keys) == Members(keys);
      ShadowsWithout(r, s, rho, Members(keys));
    }
  }

  lemma FlushSimulation(clocks: seq<int>, r: Store, s: Store, rho: int, now: int, order: seq<Bytes>,
                        verb: Verb, cmd: Command)
    requires WellFormed(r) && WellFormed(s) && Read(cmd) == Run(verb, FlushAll)
    requires |clocks| == 1
    ensures Shadows(Replay(clocks, r, DelRecords([]) + [cmd]), Apply(now, order, s, FlushAll).store, rho)
  {
    assert DelRecords([]) + [cmd] == [cmd];
    ReplayOne(clocks, r, [cmd]);
    FlushAllEmpties(clocks[0], Order(r), r);
    FlushAllEmpties(now, order, s);
  }

  /** One event, without a hazard: the replayed store goes on following the live one. */
  lemma StepSimulation(clocks: seq<int>, r: Store, s: Store, rho: int, e: Event)
    requires WellFormed(r) && WellFormed(s) && Shadows(r, s, rho) && AllBy(clocks, rho)
    requires Possible(s, e) && Fits(s, e) && !Hazard(rho, s, e)
    requires |clocks| == |Owes(s, e)|
    ensures Shadows(Replay(clocks, r, Owes(s, e)), Next(s, e), rho)
  {
    if KeyedEvent(e) {
      var verb, op := Read(e.cmd).verb, Read(e.cmd).op;
      assert CellOk(At(s, op.key));
      KeyedSimulation(clocks, r, s, rho, e.now, e.order, verb, e.cmd, op.key, op.op);
    } else {
      RemovalSimulation(clocks, r, s, rho, e);
    }
  }

  // ---- whole runs ----------------------------------------------------------

  ghost predicate PossibleRun(s: Store, es: seq<Event>)
    requires WellFormed(s)
    decreases |es|
  {
    es == [] ||
    (Possible(s, es[0]) &&
     (NextWellFormed(s, es[0]);
      Fits(s, es[0]) && PossibleRun(Next(s, es[0]), es[1..])))
  }

  /** The keyspace after a run. */
  ghost function Final(s: Store, es: seq<Event>): (r: Store)
    requires WellFormed(s) && PossibleRun(s, es)
    ensures WellFormed(r)
    decreases |es|
  {
    if es == [] then s
    else
      NextWellFormed(s, es[0]);
      Final(Next(s, es[0]), es[1..])
  }

  /** Everything a run owes the log, in order. */
  ghost function AllOwed(s: Store, es: seq<Event>): seq<Command>
    requires WellFormed(s) && PossibleRun(s, es)
    decreases |es|
  {
    if es == [] then []
    else
      NextWellFormed(s, es[0]);
      Owes(s, es[0]) + AllOwed(Next(s, es[0]), es[1..])
  }

  ghost predicate HazardFree(rho: int, s: Store, es: seq<Event>)
    requires WellFormed(s) && PossibleRun(s, es)
    decreases |es|
  {
    es == [] ||
    (!Hazard(rho, s, es[0]) &&
     (NextWellFormed(s, es[0]);
      HazardFree(rho, Next(s, es[0]), es[1..])))
  }

  /**
   Recovery simulation. Start from any baseline (a loaded snapshot, or nothing), take any
   run of commands, lazy evictions and active cycles, and replay what it owed, each record
   at any clock up to rho: without hazards the result follows the live keyspace.
   */
  lemma {:induction false} RecoverySimulation(clocks: seq<int>, r: Store, s: Store, rho: int, es: seq<Event>)
    requires WellFormed(r) && WellFormed(s) && Shadows(r, s, rho) && AllBy(clocks, rho)
    requires PossibleRun(s, es) && HazardFree(rho, s, es) && |clocks| == |AllOwed(s, es)|
    ensures Shadows(Replay(clocks, r, AllOwed(s, es)), Final(s, es), rho)
    ensures Purge(Replay(clocks, r, AllOwed(s, es)), rho) == Purge(Final(s, es), rho)
    decreases |es|
  {
    hide Next, Owes, Hazard, Fits, Possible, Shadows;
    if es != [] {
      NextWellFormed(s, es[0]);
      var n := |Owes(s, es[0])|;
      var ca, cb := clocks[..n], clocks[n..];
      assert clocks == ca + cb && AllBy(ca, rho) && AllBy(cb, rho);
      StepSimulation(ca, r, s, rho, es[0]);
      var r1, s1 := Replay(ca, r, Owes(s, es[0])), Next(s, es[0]);
      ReplayAppend(ca, cb, r, Owes(s, es[0]), AllOwed(s1, es[1..]));
      RecoverySimulation(cb, r1, s1, rho, es[1..]);
    }
    ShadowsView(Replay(clocks, r, AllOwed(s, es)), Final(s, es), rho);
  }

  // ---- exactness -----------------------------------------------------------

  function Always(rho: int, n: nat): seq<int> {
    seq(n, _ => rho)
  }

  lemma CellStepAlive(now: int, c: Cell, op: KeyOp)
    requires CellOk(c) && !Lapsed(c, now) && Wanted(op)
    ensures !Lapsed(CellStep(now, c, op).0, now)
  {
  }

  /** A command never leaves behind a deadline that has already passed. */
  lemma PerformAlive(now: int, s: Store, cmd: Command)
    requires WellFormed(s) && AllAlive(s, now)
    ensures AllAlive(Perform(now, Order(s), s, cmd).store, now)
  {
    hide CellStep;
    var read := Read(cmd);
    var t := Perform(now, Order(s), s, cmd).store;
    if read.Run? {
      var op := read.op;
      if op.Keyed? {
        KeyedAlive(now, s, cmd);
      } else if op.Del? {
        DelLoopMeans(now, s, op.keys);
        WithoutAlive(now, s, Members(op.keys));
      } else if op.Exists? {
        ExistsLoopMeans(now, s, op.keys);
        WithoutAlive(now, s, Members(ExistsLoop(now, s, op.keys).evicted));
      } else if op.Keys? {
        KeysLive(now, Order(s), s, op.pattern);
        WithoutAlive(now, s, Members(KeysLoop(now, s, Filter(op.pattern, Order(s))).evicted));
      } else if op.FlushAll? {
        FlushAllEmpties(now, Order(s), s);
      }
    }
  }

  lemma KeyedAlive(now: int, s: Store, cmd: Command)
    requires WellFormed(s) && AllAlive(s, now) && Read(cmd).Run? && Read(cmd).op.Keyed?
    ensures AllAlive(Perform(now, Order(s), s, cmd).store, now)
  {
    hide CellStep;
    OpsAreWanted(cmd);
    var k, op := Read(cmd).op.key, Read(cmd).op.op;
    ReplayedKeyed(now, s, cmd, Read(cmd).verb, k, op);
    assert !Lapsed(At(s, k), now);
    CellStepAlive(now, At(s, k), op);
    var c := CellStep(now, At(s, k), op).0;
    forall j
      ensures !Lapsed(At(Put(s, k, c), j), now)
    {
      AtPut(s, k, c, j);
      assert !Lapsed(At(s, j), now);
    }
  }

  lemma WithoutAlive(now: int, s: Store, keys: set<Bytes>)
    requires AllAlive(s, now)
    ensures AllAlive(Without(s, keys), now)
  {
    forall k
      ensures !Lapsed(At(Without(s, keys), k), now)
    {
      AtWithout(s, keys, k);
      assert !Lapsed(At(s, k), now);
    }
  }

  lemma {:induction false} ReplayAlive(rho: int, s: Store, recs: seq<Command>)
    requires WellFormed(s) && AllAlive(s, rho)
    ensures AllAlive(Replay(Always(rho, |recs|), s, recs), rho)
    decreases |recs|
  {
    hide Perform;
    if recs != [] {
      PerformWellFormed(rho, Order(s), s, recs[0]);
      PerformAlive(rho, s, recs[0]);
      assert Always(rho, |recs|)[1..] == Always(rho, |recs[1..]|);
      ReplayAlive(rho, Perform(rho, Order(s), s, recs[0]).store, recs[1..]);
    }
  }

  lemma PurgeShadows(s: Store, rho: int)
    ensures Shadows(Purge(s, rho), s, rho)
  {
  }

  /** Evictions at `now` of candidate keys do not show in the view at an earlier clock. */
  lemma EvictView(lo: int, now: int, a: Store, ea: set<Bytes>, b: Store, eb: set<Bytes>, candidates: iset<Bytes>)
    requires lo <= now && Purge(a, lo) == Purge(b, lo)
    requires forall k :: k in ea <==> k in candidates && Lapsed(At(a, k), now)
    requires forall k :: k in eb <==> k in candidates && Lapsed(At(b, k), now)
    ensures Purge(Without(a, ea), lo) == Purge(Without(b, eb), lo)
  {
    hide Purge, Without;
    var x, y := Purge(Without(a, ea), lo), Purge(Without(b, eb), lo);
    forall k
      ensures At(x, k) == At(y, k)
    {
      AtPurge(Without(a, ea), lo, k);
      AtPurge(Without(b, eb), lo, k);
      AtWithout(a, ea, k);
      AtWithout(b, eb, k);
      AtPurge(a, lo, k);
      AtPurge(b, lo, k);
    }
    SameCells(x, y);
  }

  lemma KeyedViewFrom(lo: int, now: int, a: Store, b: Store, k: Bytes, op: KeyOp)
    requires lo <= now && WellFormed(a) && WellFormed(b) && Purge(a, lo) == Purge(b, lo)
    ensures CellOk(At(a, k)) && CellOk(At(b, k))
    ensures Purge(ApplyKeyed(now, a, k, op).store, lo) == Purge(ApplyKeyed(now, b, k, op).store, lo)
  {
    hide CellStep, Purge, Put;
    assert CellOk(At(a, k)) && CellOk(At(b, k));
    AtPurge(a, lo, k);
    AtPurge(b, lo, k);
    assert Lapse(At(a, k), now) == Lapse(At(b, k), now);
    var c := CellStep(now, Lapse(At(a, k), now), op).0;
    PurgePut(a, k, c, lo);
    PurgePut(b, k, c, lo);
  }

  lemma KeysEvicted(now: int, s: Store, pattern: Bytes)
    requires WellFormed(s)
    ensures var r := KeysLoop(now, s, Filter(pattern, Order(s)));
            && r.store == Without(s, Members(r.evicted))
            && forall k :: k in Members(r.evicted) <==> GlobMatches(pattern, k) && Lapsed(At(s, k), now)
  {
    hide GlobMatches, KeysLoop, Filter;
    var order := Order(s);
    FilterMeans(pattern, order);
    KeysLoopMeans(now, s, Filter(pattern, order));
    var f := Filter(pattern, order);
    forall k
      ensures k in LapsedIn(s, now, f) <==> GlobMatches(pattern, k) && Lapsed(At(s, k), now)
    {
      assert k in f <==> k in Members(f);
      assert k in order <==> k in (set j | j in order);
      assert CellOk(At(s, k));
    }
  }

  /** What a command leaves, seen from an earlier clock, depends only on what is seen from that clock. */
  lemma PerformView(lo: int, now: int, a: Store, b: Store, cmd: Command)
    requires lo <= now && WellFormed(a) && WellFormed(b) && Purge(a, lo) == Purge(b, lo)
    ensures Purge(Perform(now, Order(a), a, cmd).store, lo) == Purge(Perform(now, Order(b), b, cmd).store, lo)
  {
    hide CellStep, Purge, Without, KeysLoop, Filter, ExistsLoop, DelLoop, GlobMatches;
    if Read(cmd).Run? {
      match Read(cmd).op {
        case Answer(_) =>
        case DbSize =>
        case Keyed(k, op) =>
          KeyedViewFrom(lo, now, a, b, k, op);
        case Del(keys) =>
          DelLoopMeans(now, a, keys);
          DelLoopMeans(now, b, keys);
          PurgeWithout(a, Members(keys), lo);
          PurgeWithout(b, Members(keys), lo);
        case Exists(keys) =>
          ExistsLoopMeans(now, a, keys);
          ExistsLoopMeans(now, b, keys);
          var ea, eb := ExistsLoop(now, a, keys).evicted, ExistsLoop(now, b, keys).evicted;
          EvictView(lo, now, a, Members(ea), b, Members(eb), iset k | k in keys);
        case Keys(pattern) =>
          KeysEvicted(now, a, pattern);
          KeysEvicted(now, b, pattern);
          var ea := KeysLoop(now, a, Filter(pattern, Order(a))).evicted;
          var eb := KeysLoop(now, b, Filter(pattern, Order(b))).evicted;
          EvictView(lo, now, a, Members(ea), b, Members(eb), iset k | GlobMatches(pattern, k));
        case FlushAll =>
          FlushAllEmpties(now, Order(a), a);
          FlushAllEmpties(now, Order(b), b);
      }
    }
  }

  predicate AllFrom(lo: int, clocks: seq<int>) {
    forall i :: 0 <= i < |clocks| ==> lo <= clocks[i]
  }

  /** Keys that are dead before a replay begins do not influence it. */
  lemma {:induction false} ReplayView(lo: int, clocks: seq<int>, a: Store, b: Store, recs: seq<Command>)
    requires WellFormed(a) && WellFormed(b) && Purge(a, lo) == Purge(b, lo)
    requires |clocks| == |recs| && AllFrom(lo, clocks)
    ensures Purge(Replay(clocks, a, recs), lo) == Purge(Replay(clocks, b, recs), lo)
    decreases |recs|
  {
    hide Perform, Purge;
    if recs != [] {
      var now := clocks[0];
      PerformWellFormed(now, Order(a), a, recs[0]);
      PerformWellFormed(now, Order(b), b, recs[0]);
      PerformView(lo, now, a, b, recs[0]);
      ReplayView(lo, clocks[1..], Perform(now, Order(a), a, recs[0]).store, Perform(now, Order(b), b, recs[0]).store,
                 recs[1..]);
    }
  }

  /** From a store without dead keys, what replay gives has none either. */
  lemma ReplayPurged(rho: int, r: Store, s: Store, recs: seq<Command>)
    requires WellFormed(r) && WellFormed(s) && WellFormed(Purge(s, rho)) && Purge(r, rho) == Purge(s, rho)
    ensures Purge(Replay(Always(rho, |recs|), r, recs), rho) == Replay(Always(rho, |recs|), Purge(s, rho), recs)
  {
    hide Replay, Purge;
    PurgeLater(s, rho, rho);
    ReplayView(rho, Always(rho, |recs|), r, Purge(s, rho), recs);
    PurgeIsAlive(s, rho);
    ReplayAlive(rho, Purge(s, rho), recs);
    PurgeOfAlive(Replay(Always(rho, |recs|), Purge(s, rho), recs), rho);
  }

  /**
   At one recovery clock, one event is recovered exactly when it is not a hazard. Replay may
   start from any store that agrees with the live one on the keys alive at that clock.
   */
  lemma StepExact(r: Store, s: Store, rho: int, e: Event)
    requires WellFormed(r) && WellFormed(s) && Purge(r, rho) == Purge(s, rho) && Possible(s, e) && Fits(s, e)
    ensures Purge(Replay(Always(rho, |Owes(s, e)|), r, Owes(s, e)), rho) == Purge(Next(s, e), rho)
            <==> !Hazard(rho, s, e)
  {
    hide Next, Owes, Hazard, Fits, Possible, Shadows, Replay, Purge;
    PurgeWellFormed(s, rho);
    ReplayPurged(rho, r, s, Owes(s, e));
    if Hazard(rho, s, e) {
      HazardBreaks(s, rho, e);
    } else {
      var clocks := Always(rho, |Owes(s, e)|);
      ReplayPurged(rho, Purge(s, rho), s, Owes(s, e)) by {
        PurgeLater(s, rho, rho);
      }
      PurgeShadows(s, rho);
      StepSimulation(clocks, Purge(s, rho), s, rho, e);
      ShadowsView(Replay(clocks, Purge(s, rho), Owes(s, e)), Next(s, e), rho);
    }
  }

  lemma HazardBreaks(s: Store, rho: int, e: Event)
    requires WellFormed(s) && WellFormed(Purge(s, rho)) && Fits(s, e) && Hazard(rho, s, e)
    ensures Replay(Always(rho, |Owes(s, e)|), Purge(s, rho), Owes(s, e)) != Purge(Next(s, e), rho)
  {
    hide CellStep, KeyedRecords, Redo, DeadlineFits;
    var verb, op, now := Read(e.cmd).verb, Read(e.cmd).op, e.now;
    var k := op.key;
    var c := Found(s, now, k);
    assert CellOk(At(s, k));
    OwedKeyed(now, e.order, s, verb, e.cmd, k, op.op);
    assert c == At(s, k);
    var recs := KeyedRecords(now, c, e.cmd, k, op.op);
    assert DelRecords([]) + recs == recs;
    var clocks, r := Always(rho, |recs|), Purge(s, rho);
    ReplayKeyed(clocks, r, now, c, verb, e.cmd, k, op.op);
    AtPurge(s, rho, k);
    OpsAreWanted(e.cmd);
    CellHazardBreaks(clocks, now, rho, c, e.cmd, k, op.op);
    var x, c' := Redo(clocks, At(r, k), now, c, e.cmd, k, op.op), CellStep(now, c, op.op).0;
    AtPut(r, k, x, k);
    AtPut(s, k, c', k);
    AtPurge(Next(s, e), rho, k);
  }

  lemma {:induction false} PossiblePrefix(s: Store, es: seq<Event>, i: nat)
    requires WellFormed(s) && PossibleRun(s, es) && i <= |es|
    ensures PossibleRun(s, es[..i])
    decreases |es|
  {
    if i > 0 {
      NextWellFormed(s, es[0]);
      assert es[..i][1..] == es[1..][..i - 1];
      PossiblePrefix(Next(s, es[0]), es[1..], i - 1);
    }
  }

  /** Recovering at clock rho from r, after the first i events, gives the live keyspace minus what is dead. */
  ghost predicate RecoversAt(rho: int, r: Store, s: Store, es: seq<Event>, i: nat)
    requires WellFormed(r) && WellFormed(s) && i <= |es| && PossibleRun(s, es[..i])
  {
    var recs := AllOwed(s, es[..i]);
    Purge(Replay(Always(rho, |recs|), r, recs), rho) == Purge(Final(s, es[..i]), rho)
  }

  lemma RecoversLater(rho: int, r: Store, s: Store, es: seq<Event>, i: nat)
    requires WellFormed(r) && WellFormed(s) && 0 < i <= |es| && PossibleRun(s, es[..i])
    requires Possible(s, es[0]) && WellFormed(Next(s, es[0]))
    ensures PossibleRun(Next(s, es[0]), es[1..][..i - 1])
    ensures RecoversAt(rho, r, s, es, i) <==>
            RecoversAt(rho, Replay(Always(rho, |Owes(s, es[0])|), r, Owes(s, es[0])), Next(s, es[0]), es[1..], i - 1)
  {
    hide Next, Owes, Fits, Possible, Purge;
    assert es[..i][1..] == es[1..][..i - 1];
    var a, b := Owes(s, es[0]), AllOwed(Next(s, es[0]), es[1..][..i - 1]);
    assert AllOwed(s, es[..i]) == a + b;
    assert Always(rho, |a + b|) == Always(rho, |a|) + Always(rho, |b|);
    ReplayAppend(Always(rho, |a|), Always(rho, |b|), r, a, b);
  }

  lemma RecoversFirst(rho: int, r: Store, s: Store, es: seq<Event>)
    requires WellFormed(r) && WellFormed(s) && es != [] && PossibleRun(s, es[..1])
    ensures RecoversAt(rho, r, s, es, 1) <==>
            Purge(Replay(Always(rho, |Owes(s, es[0])|), r, Owes(s, es[0])), rho) == Purge(Next(s, es[0]), rho)
  {
    hide Next, Owes, Fits, Possible, Purge;
    NextWellFormed(s, es[0]);
    assert es[..1] == [es[0]];
    assert AllOwed(Next(s, es[0]), []) == [];
    assert AllOwed(s, es[..1]) == Owes(s, es[0]) + [];
    assert Owes(s, es[0]) + [] == Owes(s, es[0]);
    assert Final(s, es[..1]) == Next(s, es[0]);
  }

  lemma RecoversNothing(rho: int, r: Store, s: Store, es: seq<Event>)
    requires WellFormed(r) && WellFormed(s) && Purge(r, rho) == Purge(s, rho)
    ensures PossibleRun(s, es[..0]) && RecoversAt(rho, r, s, es, 0)
  {
    assert es[..0] == [];
  }

  /**
   Exactly when recovery is right: at one recovery clock, recovering after every event of
   a run gives the live keyspace minus the dead keys if and only if no event is a hazard.
   The replay starts from the snapshot the run began with, from nothing if it began with
   nothing, or from any other store that shows the same keys alive at that clock.
   */
  lemma {:induction false} RecoveryExact(rho: int, r: Store, s: Store, es: seq<Event>)
    requires WellFormed(r) && WellFormed(s) && Purge(r, rho) == Purge(s, rho) && PossibleRun(s, es)
    ensures forall i :: 0 <= i <= |es| ==> PossibleRun(s, es[..i])
    ensures (forall i :: 0 <= i <= |es| ==> RecoversAt(rho, r, s, es, i)) <==> HazardFree(rho, s, es)
    decreases |es|
  {
    hide Next, Owes, Fits, Possible, RecoversAt, Hazard, Replay, Purge;
    forall i | 0 <= i <= |es|
      ensures PossibleRun(s, es[..i])
    {
      PossiblePrefix(s, es, i);
    }
    RecoversNothing(rho, r, s, es);
    if es != [] {
      var s1 := Next(s, es[0]);
      NextWellFormed(s, es[0]);
      StepExact(r, s, rho, es[0]);
      RecoversFirst(rho, r, s, es);
      if !Hazard(rho, s, es[0]) {
        var r1 := Replay(Always(rho, |Owes(s, es[0])|), r, Owes(s, es[0]));
        RecoveryExact(rho, r1, s1, es[1..]);
        forall i | 0 < i <= |es|
          ensures RecoversAt(rho, r, s, es, i) <==> RecoversAt(rho, r1, s1, es[1..], i - 1)
        {
          RecoversLater(rho, r, s, es, i);
        }
        assert forall j :: 0 <= j <= |es[1..]| ==>
          (RecoversAt(rho, r1, s1, es[1..], j) <==> RecoversAt(rho, r, s, es, j + 1));
      }
    }
  }

  /** SET k 5 with a TTL of 100 ms at time 0, and INCR k at 50. */
  const HAZARDOUS: seq<Event> := [Exec(0, [], ["SET", "k", "5", "PX", "100"]), Exec(50, ["k"], ["INCR", "k"])]

  /** The keyspace after n of those two commands. */
  function HazardousStore(n: nat): Store {
    if n == 0 then EMPTY else Store(map["k" := Str(if n == 1 then "5" else "6")], map["k" := 100])
  }

  lemma HazardousReads()
    ensures Read(HAZARDOUS[0].cmd) == Run(SET, Keyed("k", Set("5", false, false, Some(100))))
    ensures Read(HAZARDOUS[1].cmd) == Run(INCR, Keyed("k", IncrBy(1)))
  {
    hide ParseI64, ToString;
    HundredParses();
    assert Upper("INCR") == "INCR" && Upper("SET") == "SET" && Upper("PX") == "PX";
    var cmd := HAZARDOUS[0].cmd;
    assert ScanSetOptions(cmd, 5, false, false, Some(100)) == Options(false, false, Some(100));
    assert ScanSetOptions(cmd, 3, false, false, None) == ScanSetOptions(cmd, 5, false, false, Some(100));
  }

  lemma HundredParses()
    ensures ToString(100) == "100" && ParseI64("100") == Some(100)
  {
    assert NatToString(1) == "1" && NatToString(10) == "10" && NatToString(100) == "100";
    PrintParse(100);
  }

  lemma IncrExamples()
    ensures var c := Cell(Some(Str("5")), Some(100));
            Increments(c, 1) && CellStep(50, c, IncrBy(1)).0 == Cell(Some(Str("6")), Some(100))
    ensures CellStep(200, GONE, IncrBy(1)).0 == Cell(Some(Str("1")), None)
  {
    assert NatToString(1) == "1" && NatToString(5) == "5" && NatToString(6) == "6";
    PrintParse(5);
  }

  lemma HazardousFirst()
    ensures var e := HAZARDOUS[0];
            && WellFormed(EMPTY) && Possible(EMPTY, e) && Fits(EMPTY, e) && Next(EMPTY, e) == HazardousStore(1)
            && Owes(EMPTY, e) == [["SET", "k", "5"], ["PEXPIREAT", "k", "100"]]
  {
    hide ToString, Read;
    HazardousReads();
    HundredParses();
    WellFormedMeans(EMPTY);
    OwedKeyed(0, [], EMPTY, SET, HAZARDOUS[0].cmd, "k", Set("5", false, false, Some(100)));
  }

  lemma HazardousSecond()
    ensures var s, e := HazardousStore(1), HAZARDOUS[1];
            && WellFormed(s) && Possible(s, e) && Fits(s, e) && Next(s, e) == HazardousStore(2)
            && Owes(s, e) == [["INCR", "k"]] && Hazard(200, s, e)
  {
    hide ToString, Read, CellStep, Increments;
    HazardousReads();
    IncrExamples();
    var s := HazardousStore(1);
    WellFormedMeans(s);
    assert At(s, "k") == Cell(Some(Str("5")), Some(100));
    OwedKeyed(50, ["k"], s, INCR, ["INCR", "k"], "k", IncrBy(1));
    assert DelRecords([]) + [["INCR", "k"]] == [["INCR", "k"]];
  }

  lemma HazardousReplay()
    ensures WellFormed(EMPTY)
    ensures Replay([200, 200, 200], EMPTY, [["SET", "k", "5"], ["PEXPIREAT", "k", "100"], ["INCR", "k"]])
         == Store(map["k" := Str("1")], map[])
  {
    hide CellStep, Read, Perform, Replay;
    WellFormedMeans(EMPTY);
    HazardousReads();
    IncrExamples();
    HundredParses();
    var recs := [["SET", "k", "5"], ["PEXPIREAT", "k", "100"], ["INCR", "k"]];
    ReplaySet([200, 200], EMPTY, "k", "5", Some(100));
    ReplayAppend([200, 200], [200], EMPTY, recs[..2], recs[2..]);
    assert [200, 200] + [200] == [200, 200, 200] && recs[..2] + recs[2..] == recs;
    assert [["SET", "k", "5"]] + DeadlineRecord("k", Some(100)) == recs[..2];
    DeadAtOnce();
    ReplayOne([200], EMPTY, recs[2..]);
    ReplayedKeyed(200, EMPTY, ["INCR", "k"], INCR, "k", IncrBy(1));
  }

  lemma DeadAtOnce()
    ensures CellStep(200, Cell(Some(Str("5")), None), ExpireAt(100)).0 == GONE
    ensures Put(EMPTY, "k", GONE) == EMPTY
    ensures Put(EMPTY, "k", Cell(Some(Str("1")), None)) == Store(map["k" := Str("1")], map[])
  {
  }

  /**
   The hypothesis is needed. From nothing, SET k 5 with a deadline at 100, then INCR k at 50,
   and recovery at 200: the live key is dead by then, but replaying the log brings k back
   as 1, without a TTL.
   */
  lemma HazardExample()
    ensures WellFormed(EMPTY) && PossibleRun(EMPTY, HAZARDOUS) && !HazardFree(200, EMPTY, HAZARDOUS)
    ensures Final(EMPTY, HAZARDOUS) == Store(map["k" := Str("6")], map["k" := 100])
    ensures Purge(Final(EMPTY, HAZARDOUS), 200) == EMPTY
    ensures |AllOwed(EMPTY, HAZARDOUS)| == 3
    ensures Replay([200, 200, 200], EMPTY, AllOwed(EMPTY, HAZARDOUS)) == Store(map["k" := Str("1")], map[])
  {
    hide Next, Owes, Possible, Fits, Hazard, Replay;
    HazardousFirst();
    HazardousSecond();
    HazardousReplay();
    var es, s1 := HAZARDOUS, HazardousStore(1);
    var s2 := HazardousStore(2);
    assert es[1..] == [es[1]] && [es[1]][1..] == [];
    assert AllOwed(s2, []) == [] && AllOwed(s1, [es[1]]) == [["INCR", "k"]] + [];
    assert AllOwed(EMPTY, es) == [["SET", "k", "5"], ["PEXPIREAT", "k", "100"]] + [["INCR", "k"]]
                              == [["SET", "k", "5"], ["PEXPIREAT", "k", "100"], ["INCR", "k"]];
    assert Final(s1, [es[1]]) == s2;
  }

  // ---- replay over a stretch of time ---------------------------------------

  /**
   As seen by a replay that runs from lo to hi, a store follows the live one: on keys not dead
   by lo they agree, or the replayed one has lost a key that is dead by hi.
   */
  ghost predicate Tracks(lo: int, hi: int, r: Store, s: Store) {
    Shadows(Purge(r, lo), Purge(s, lo), hi)
  }

  lemma TracksFromShadows(lo: int, hi: int, r: Store, s: Store)
    requires lo <= hi && Shadows(r, s, hi)
    ensures Tracks(lo, hi, r, s)
  {
    hide Purge;
    forall k
      ensures Follows(At(Purge(r, lo), k), At(Purge(s, lo), k), hi)
    {
      AtPurge(r, lo, k);
      AtPurge(s, lo, k);
      assert Follows(At(r, k), At(s, k), hi);
    }
  }

  lemma ShadowsUnpurged(lo: int, hi: int, x: Store, s: Store)
    requires lo <= hi && Shadows(x, Purge(s, lo), hi)
    ensures Shadows(x, s, hi)
  {
    hide Purge;
    forall k
      ensures Follows(At(x, k), At(s, k), hi)
    {
      AtPurge(s, lo, k);
      assert Follows(At(x, k), At(Purge(s, lo), k), hi);
    }
  }

  /** Once the replay is over, the two show the same keys. */
  lemma TracksView(lo: int, hi: int, later: int, r: Store, s: Store)
    requires lo <= hi <= later && Tracks(lo, hi, r, s)
    ensures Purge(r, later) == Purge(s, later)
  {
    hide Purge, Shadows;
    ShadowsView(Purge(r, lo), Purge(s, lo), hi);
    PurgeLater(r, lo, hi);
    PurgeLater(s, lo, hi);
    PurgeLater(r, hi, later);
    PurgeLater(s, hi, later);
  }

  /** Replaying a run without hazards, each record at any clock from lo to hi, keeps following the live store. */
  lemma ReplayTracks(lo: int, hi: int, clocks: seq<int>, r: Store, s: Store, es: seq<Event>)
    requires WellFormed(r) && WellFormed(s) && lo <= hi && Tracks(lo, hi, r, s)
    requires PossibleRun(s, es) && HazardFree(hi, s, es)
    requires |clocks| == |AllOwed(s, es)| && AllFrom(lo, clocks) && AllBy(clocks, hi)
    ensures Tracks(lo, hi, Replay(clocks, r, AllOwed(s, es)), Final(s, es))
  {
    hide Purge, Replay, Shadows, PossibleRun, HazardFree, AllOwed, Final;
    var r', recs := Purge(r, lo), AllOwed(s, es);
    PurgeWellFormed(r, lo);
    PurgeLater(r, lo, lo);
    ReplayView(lo, clocks, r, r', recs);
    ShadowsUnpurged(lo, hi, r', s);
    RecoverySimulation(clocks, r', s, hi, es);
    TracksFromShadows(lo, hi, Replay(clocks, r', recs), Final(s, es));
  }

  // ---- logging completeness ------------------------------------------------

  lemma RedoneKeyed(now: int, order: seq<Bytes>, s: Store, verb: Verb, cmd: Command, k: Bytes, op: KeyOp)
    requires WellFormed(s) && Read(cmd) == Run(verb, Keyed(k, op))
    requires CellOk(Found(s, now, k)) && DeadlineFits(now, Found(s, now, k), op)
    ensures var owed := Owed(now, order, s, cmd);
            Replay(Always(now, |owed|), s, owed) == Perform(now, order, s, cmd).store
  {
    hide CellStep, KeyedRecords, Redo, DeadlineFits, Replay, Perform, Owed, DelRecords, EvictedAt, Put, Without, Read;
    assert CellOk(At(s, k));
    PerformKeyed(now, order, s, cmd, verb, k, op);
    var c, e := Found(s, now, k), EvictedAt(s, now, k);
    var recs, c' := KeyedRecords(now, c, cmd, k, op), CellStep(now, c, op).0;
    OwedKeyed(now, order, s, verb, cmd, k, op);
    var ca, cb := Always(now, |e|), Always(now, |recs|);
    assert Always(now, |e| + |recs|) == ca + cb;
    ReplayAppend(ca, cb, s, DelRecords(e), recs);
    ReplayedDels(ca, s, e);
    TouchMeans(s, now, k);
    var s1 := Without(s, Members(e));
    WithoutWellFormed(s, Members(e));
    AtPut(s, k, c, k);
    ReplayKeyed(cb, s1, now, c, verb, cmd, k, op);
    CellSimulation(cb, c, now, now, c, cmd, k, op);
    OpsAreWanted(cmd);
    CellStepAlive(now, c, op);
    PutPut(s, k, c, c');
  }

  /** A store that follows another at every clock is the other. */
  lemma ShadowsAlways(r: Store, s: Store)
    requires forall rho :: Shadows(r, s, rho)
    ensures r == s
  {
    forall k
      ensures At(r, k) == At(s, k)
    {
      var d := At(s, k).deadline;
      var before := if d.Some? then d.value - 1 else 0;
      assert Shadows(r, s, before);
      assert Follows(At(r, k), At(s, k), before);
    }
    SameCells(r, s);
  }

  lemma RedoneOther(clocks: seq<int>, s: Store, e: Event)
    requires WellFormed(s) && Possible(s, e) && !KeyedEvent(e) && |clocks| == |Owes(s, e)|
    ensures Replay(clocks, s, Owes(s, e)) == Next(s, e)
  {
    hide Next, Owes, Possible, KeyedEvent;
    forall rho
      ensures Shadows(Replay(clocks, s, Owes(s, e)), Next(s, e), rho)
    {
      assert Shadows(s, s, rho);
      RemovalSimulation(clocks, s, s, rho, e);
    }
    ShadowsAlways(Replay(clocks, s, Owes(s, e)), Next(s, e));
  }

  /**
   Logging completeness. Redoing what a command owes, at its own clock and from the same
   state, gives exactly the state the command left; and a command that owes the log nothing
   beyond its evictions changed nothing beyond them.
   */
  lemma LoggingComplete(now: int, order: seq<Bytes>, s: Store, cmd: Command)
    requires WellFormed(s) && Enumerates(order, s.db.Keys) && Fits(s, Exec(now, order, cmd))
    ensures var out := Perform(now, order, s, cmd);
            var owed := Owed(now, order, s, cmd);
            && Replay(Always(now, |owed|), s, owed) == out.store
            && (owed == DelRecords(out.evicted) ==> out.store == Without(s, Members(out.evicted)))
  {
    hide Perform, Owed, Replay, OpOf, VerbOf;
    if Owed(now, order, s, cmd) == DelRecords(Perform(now, order, s, cmd).evicted) {
      SkippedMeansUnchanged(now, order, s, cmd);
    }
    var e := Exec(now, order, cmd);
    if KeyedEvent(e) {
      var op := Read(cmd).op;
      assert CellOk(At(s, op.key));
      RedoneKeyed(now, order, s, Read(cmd).verb, cmd, op.key, op.op);
    } else {
      RedoneOther(Always(now, |Owed(now, order, s, cmd)|), s, e);
    }
  }
}
