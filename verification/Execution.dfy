/**
 Executing a command, what it owes the log, and replaying a log through the same
 dispatcher with logging off.
 */
module Execution {
  import opened Base
  import opened Decimal
  import opened RespWriter
  import opened Keyspace
  import opened Commands
  import opened Laws

  const EMPTY_COMMAND: Bytes := Error("ERR empty command")

  /** How the dispatcher reads a command before running a handler. */
  datatype Reading =
    | Immediate(reply: Bytes)
    | Stop
    | Run(verb: Verb, op: Op)

  function Read(cmd: Command): Reading {
    if cmd == [] then Immediate(EMPTY_COMMAND)
    else
      var name := Upper(cmd[0]);
      if name == "SHUTDOWN" then Stop
      else
        match VerbOf(name)
        case None => Immediate(Error("ERR unknown command '" + cmd[0] + "'"))
        case Some(verb) => Run(verb, OpOf(verb, cmd))
  }

  /** The memory effect of a command and its reply, persistence aside. */
  function Perform(now: int, order: seq<Bytes>, s: Store, cmd: Command): Outcome
    requires WellFormed(s)
  {
    match Read(cmd)
    case Immediate(reply) => Outcome(s, reply, [])
    case Stop => Outcome(s, OK, [])
    case Run(verb, op) =>
      assert op.Keyed? ==> CellOk(At(s, op.key));
      Apply(now, order, s, op)
  }

  lemma PerformWellFormed(now: int, order: seq<Bytes>, s: Store, cmd: Command)
    requires WellFormed(s) && Distinct(order)
    ensures WellFormed(Perform(now, order, s, cmd).store)
    ensures EvictsOnce(s, now, Perform(now, order, s, cmd).evicted)
  {
    var r := Read(cmd);
    if r.Run? {
      ApplyWellFormed(now, order, s, r.op);
      ApplyEvicts(now, order, s, r.op);
    }
  }

  /** A success reply that makes the log read an argument implies the argument is there. */
  lemma AnsweredAlways(now: int, order: seq<Bytes>, s: Store, verb: Verb, cmd: Command)
    requires WellFormed(s) && cmd != []
    ensures var op := OpOf(verb, cmd);
            (op.Keyed? ==> CellOk(At(s, op.key))) && Answered(verb, cmd, Apply(now, order, s, op).reply)
  {
    var op := OpOf(verb, cmd);
    assert op.Keyed? ==> CellOk(At(s, op.key));
  }

  /** The records a command owes the log: its evictions first, then the mutation. */
  function Owed(now: int, order: seq<Bytes>, s: Store, cmd: Command): seq<Command>
    requires WellFormed(s)
  {
    match Read(cmd)
    case Immediate(_) => []
    case Stop => []
    case Run(verb, op) =>
      AnsweredAlways(now, order, s, verb, cmd);
      var out := Apply(now, order, s, op);
      DelRecords(out.evicted) + LogMutation(verb, cmd, out.reply, out.store.ttl)
  }

  /** The cell a one-key command finds, after the lazy-expiry gate. */
  function Found(s: Store, now: int, k: Bytes): Cell {
    Lapse(At(s, k), now)
  }

  /** A one-key command is a step on that key's cell, after the gate. */
  lemma PerformKeyed(now: int, order: seq<Bytes>, s: Store, cmd: Command, verb: Verb, k: Bytes, op: KeyOp)
    requires WellFormed(s) && Read(cmd) == Run(verb, Keyed(k, op))
    ensures CellOk(At(s, k)) && CellOk(Found(s, now, k))
    ensures Perform(now, order, s, cmd).store == Put(s, k, CellStep(now, Found(s, now, k), op).0)
    ensures Perform(now, order, s, cmd).reply == CellStep(now, Found(s, now, k), op).1
  {
    hide CellStep;
    assert CellOk(At(s, k));
  }

  // ---- iteration order -----------------------------------------------------

  lemma {:induction false} EnumerationExists(keys: set<Bytes>) returns (order: seq<Bytes>)
    ensures Enumerates(order, keys)
    decreases keys
  {
    if keys == {} {
      order := [];
    } else {
      var k :| k in keys;
      var rest := EnumerationExists(keys - {k});
      assert k !in rest by {
        assert k !in (set j | j in rest);
      }
      order := [k] + rest;
      DistinctCons(k, rest);
      assert (set j | j in order) == {k} + (set j | j in rest);
    }
  }

  /** Some iteration order of the store's keys; the store after a command does not depend on which. */
  ghost function Order(s: Store): (order: seq<Bytes>)
    ensures Enumerates(order, s.db.Keys)
  {
    assert exists order :: Enumerates(order, s.db.Keys) by {
      var order := EnumerationExists(s.db.Keys);
    }
    var order :| Enumerates(order, s.db.Keys);
    order
  }

  lemma OrderIrrelevant(now: int, a: seq<Bytes>, b: seq<Bytes>, s: Store, cmd: Command)
    requires WellFormed(s) && Enumerates(a, s.db.Keys) && Enumerates(b, s.db.Keys)
    ensures Perform(now, a, s, cmd).store == Perform(now, b, s, cmd).store
  {
    var read := Read(cmd);
    if read.Run? && read.op.Keys? {
      var f, g := Filter(read.op.pattern, a), Filter(read.op.pattern, b);
      FilterMeans(read.op.pattern, a);
      FilterMeans(read.op.pattern, b);
      KeysLoopMeans(now, s, f);
      KeysLoopMeans(now, s, g);
      assert forall k :: k in a <==> k in (set j | j in a);
      assert forall k :: k in b <==> k in (set j | j in b);
      assert forall k :: k in f <==> k in Members(f);
      assert forall k :: k in g <==> k in Members(g);
      assert LapsedIn(s, now, f) == LapsedIn(s, now, g);
    }
  }

  // ---- replay --------------------------------------------------------------

  /** Executing records in order with logging off, each at its own clock reading. */
  ghost function Replay(clocks: seq<int>, s: Store, recs: seq<Command>): (r: Store)
    requires WellFormed(s) && |clocks| == |recs|
    ensures WellFormed(r)
    decreases |recs|
  {
    if recs == [] then s
    else
      PerformWellFormed(clocks[0], Order(s), s, recs[0]);
      Replay(clocks[1..], Perform(clocks[0], Order(s), s, recs[0]).store, recs[1..])
  }

  lemma {:induction false} ReplayAppend(ca: seq<int>, cb: seq<int>, s: Store, a: seq<Command>, b: seq<Command>)
    requires WellFormed(s) && |ca| == |a| && |cb| == |b|
    ensures Replay(ca + cb, s, a + b) == Replay(cb, Replay(ca, s, a), b)
    decreases |a|
  {
    if a == [] {
      assert ca + cb == cb && a + b == b;
    } else {
      assert (ca + cb)[1..] == ca[1..] + cb && (a + b)[1..] == a[1..] + b;
      PerformWellFormed(ca[0], Order(s), s, a[0]);
      ReplayAppend(ca[1..], cb, Perform(ca[0], Order(s), s, a[0]).store, a[1..], b);
    }
  }

  lemma ReplayOne(clocks: seq<int>, s: Store, recs: seq<Command>)
    requires WellFormed(s) && |clocks| == |recs| == 1
    ensures Replay(clocks, s, recs) == Perform(clocks[0], Order(s), s, recs[0]).store
  {
    PerformWellFormed(clocks[0], Order(s), s, recs[0]);
    assert recs[1..] == [] && clocks[1..] == [];
  }

  lemma ReplayTwo(clocks: seq<int>, s: Store, recs: seq<Command>)
    requires WellFormed(s) && |clocks| == |recs| == 2
    ensures WellFormed(Perform(clocks[0], Order(s), s, recs[0]).store)
    ensures Replay(clocks, s, recs)
         == (var mid := Perform(clocks[0], Order(s), s, recs[0]).store;
             Perform(clocks[1], Order(mid), mid, recs[1]).store)
  {
    PerformWellFormed(clocks[0], Order(s), s, recs[0]);
    ReplayOne(clocks[1..], Perform(clocks[0], Order(s), s, recs[0]).store, recs[1..]);
  }

  // ---- reading back the records the log writes -----------------------------

  lemma LoggedNames()
    ensures Upper("SET") == "SET" && VerbOf("SET") == Some(SET)
    ensures Upper("DEL") == "DEL" && VerbOf("DEL") == Some(DEL)
    ensures Upper("PERSIST") == "PERSIST" && VerbOf("PERSIST") == Some(PERSIST)
    ensures Upper("PEXPIREAT") == "PEXPIREAT" && VerbOf("PEXPIREAT") == Some(PEXPIREAT)
  {
  }

  lemma ReadSet(k: Bytes, v: Bytes)
    ensures Read(["SET", k, v]) == Run(SET, Keyed(k, Set(v, false, false, None)))
  {
    LoggedNames();
  }

  lemma ReadPersist(k: Bytes)
    ensures Read(["PERSIST", k]) == Run(PERSIST, Keyed(k, Persist))
  {
    LoggedNames();
  }

  /** A logged deadline reads back as itself exactly when it fits an int64. */
  lemma ReadDeadline(k: Bytes, at: int)
    ensures Read(["PEXPIREAT", k, ToString(at)])
         == Run(PEXPIREAT, if InI64(at) then Keyed(k, ExpireAt(at)) else Answer(NOT_AN_INTEGER))
  {
    LoggedNames();
    PrintParse(at);
  }

  lemma ReadDel(k: Bytes)
    ensures Read(DelRecord(k)) == Run(DEL, Del([k]))
  {
    LoggedNames();
    assert DelRecord(k)[1..] == [k];
  }

  // ---- what one record does ------------------------------------------------

  lemma ReplayedKeyed(now: int, s: Store, rec: Command, verb: Verb, k: Bytes, op: KeyOp)
    requires WellFormed(s) && Read(rec) == Run(verb, Keyed(k, op))
    ensures CellOk(At(s, k))
    ensures Perform(now, Order(s), s, rec).store == Put(s, k, CellStep(now, Lapse(At(s, k), now), op).0)
  {
    assert CellOk(At(s, k));
  }

  lemma ReplayedDel(now: int, s: Store, k: Bytes)
    requires WellFormed(s)
    ensures Perform(now, Order(s), s, DelRecord(k)).store == Put(s, k, GONE) == Without(s, {k})
  {
    ReadDel(k);
    DelLoopMeans(now, s, [k]);
    assert Members([k]) == {k};
    PutGone(s, k);
  }

  lemma {:induction false} ReplayedDels(clocks: seq<int>, s: Store, keys: seq<Bytes>)
    requires WellFormed(s) && |clocks| == |keys|
    ensures Replay(clocks, s, DelRecords(keys)) == Without(s, Members(keys))
    decreases |keys|
  {
    if keys == [] {
      WithoutNone(s);
    } else {
      var k := keys[0];
      assert DelRecords(keys)[1..] == DelRecords(keys[1..]);
      ReplayedDel(clocks[0], s, k);
      PerformWellFormed(clocks[0], Order(s), s, DelRecord(k));
      ReplayedDels(clocks[1..], Without(s, {k}), keys[1..]);
      WithoutTwice(s, {k}, Members(keys[1..]));
      MembersCons(keys);
    }
  }
}
