/**
 Logging completeness: the reply bytes decide correctly what a command owes the
 log, and the records owed redo exactly what the command did.
 */
module Logging {
  import opened Base
  import opened Decimal
  import opened RespWriter
  import opened Keyspace
  import opened Commands
  import opened Laws
  import opened Execution

  /** The records of a one-key mutation, from what happened to the cell rather than from reply bytes. */
  function KeyedRecords(now: int, c: Cell, cmd: Command, k: Bytes, op: KeyOp): seq<Command>
    requires CellOk(c)
  {
    var c' := CellStep(now, c, op).0;
    match op
    case Set(v, nx, xx, ms) =>
      if (nx && c.value.Some?) || (xx && c.value.None?) then []
      else [["SET", k, v]] + DeadlineRecord(k, c'.deadline)
    case Expire(_, _) => ExpireRecords(c, c', k)
    case ExpireAt(_) => ExpireRecords(c, c', k)
    case Persist => if c.value.None? || c.deadline.None? then [] else [["PERSIST", k]]
    case IncrBy(delta) => if Increments(c, delta) then [cmd] else []
    case Push(_, _) => if HoldsString(c.value) then [] else [cmd]
    case Pop(_) => if HoldsList(c.value) then [cmd] else []
    case _ => []
  }

  function ExpireRecords(c: Cell, c': Cell, k: Bytes): seq<Command> {
    if c.value.None? then []
    else if c'.deadline.Some? then DeadlineRecord(k, c'.deadline)
    else [["DEL", k]]
  }

  /** The increment succeeds: a number, and the sum fits an int64. */
  predicate Increments(c: Cell, delta: int) {
    !HoldsList(c.value) &&
    var cur := if c.value.Some? then ParseI64(c.value.value.s) else Some(0);
    cur.Some? && InI64(cur.value + delta)
  }

  lemma DecideSet(now: int, c: Cell, cmd: Command, k: Bytes, op: KeyOp, ttl: map<Bytes, int>)
    requires CellOk(c) && |cmd| >= 3 && cmd[1] == k && op.Set? && cmd[2] == op.value
    requires Lookup(ttl, k) == CellStep(now, c, op).0.deadline
    ensures LogMutation(SET, cmd, CellStep(now, c, op).1, ttl) == KeyedRecords(now, c, cmd, k, op)
  {
  }

  lemma DecideExpire(now: int, c: Cell, verb: Verb, cmd: Command, k: Bytes, op: KeyOp, ttl: map<Bytes, int>)
    requires verb in {EXPIRE, PEXPIRE, PEXPIREAT}
    requires CellOk(c) && |cmd| == 3 && cmd[1] == k && (op.Expire? || op.ExpireAt?)
    requires Lookup(ttl, k) == CellStep(now, c, op).0.deadline
    ensures LogMutation(verb, cmd, CellStep(now, c, op).1, ttl) == KeyedRecords(now, c, cmd, k, op)
  {
    IntegerLiterals();
  }

  lemma DecidePersist(now: int, c: Cell, cmd: Command, k: Bytes, ttl: map<Bytes, int>)
    requires CellOk(c) && |cmd| == 2 && cmd[1] == k
    ensures LogMutation(PERSIST, cmd, CellStep(now, c, Persist).1, ttl) == KeyedRecords(now, c, cmd, k, Persist)
  {
    IntegerLiterals();
  }

  lemma DecideIncr(now: int, c: Cell, verb: Verb, cmd: Command, k: Bytes, delta: int, ttl: map<Bytes, int>)
    requires verb in {INCR, DECR, INCRBY} && CellOk(c)
    ensures var op := IncrBy(delta);
            LogMutation(verb, cmd, CellStep(now, c, op).1, ttl) == KeyedRecords(now, c, cmd, k, op)
  {
    hide ParseI64, ToString;
  }

  lemma DecidePush(now: int, c: Cell, verb: Verb, cmd: Command, k: Bytes, op: KeyOp, ttl: map<Bytes, int>)
    requires verb in {LPUSH, RPUSH} && CellOk(c) && op.Push?
    ensures LogMutation(verb, cmd, CellStep(now, c, op).1, ttl) == KeyedRecords(now, c, cmd, k, op)
  {
  }

  /** A popped value is never mistaken for "nothing popped". */
  lemma DecidePop(now: int, c: Cell, verb: Verb, cmd: Command, k: Bytes, op: KeyOp, ttl: map<Bytes, int>)
    requires verb in {LPOP, RPOP} && CellOk(c) && op.Pop?
    ensures LogMutation(verb, cmd, CellStep(now, c, op).1, ttl) == KeyedRecords(now, c, cmd, k, op)
  {
    hide Bulk, ToString;
    if HoldsList(c.value) {
      var items := c.value.value.items;
      BulkIsNotNull(if op.left then items[0] else items[|items| - 1]);
    }
  }

  predicate Mutating(verb: Verb) {
    verb in {SET, EXPIRE, PEXPIRE, PEXPIREAT, PERSIST, INCR, DECR, INCRBY, LPUSH, RPUSH, LPOP, RPOP}
  }

  /** What log_mutation reads off the reply is what happened to the cell. */
  lemma LogDecision(now: int, c: Cell, verb: Verb, cmd: Command, k: Bytes, op: KeyOp, ttl: map<Bytes, int>)
    requires CellOk(c) && cmd != [] && OpOf(verb, cmd) == Keyed(k, op)
    requires Lookup(ttl, k) == CellStep(now, c, op).0.deadline
    ensures Answered(verb, cmd, CellStep(now, c, op).1)
    ensures LogMutation(verb, cmd, CellStep(now, c, op).1, ttl) == KeyedRecords(now, c, cmd, k, op)
  {
    hide CellStep, KeyedRecords, LogMutation;
    if verb == SET {
      DecideSet(now, c, cmd, k, op, ttl);
    } else if verb in {EXPIRE, PEXPIRE, PEXPIREAT} {
      DecideExpire(now, c, verb, cmd, k, op, ttl);
    } else if verb == PERSIST {
      DecidePersist(now, c, cmd, k, ttl);
    } else if verb in {INCR, DECR, INCRBY} {
      DecideIncr(now, c, verb, cmd, k, op.delta, ttl);
    } else if verb in {LPUSH, RPUSH} {
      DecidePush(now, c, verb, cmd, k, op, ttl);
    } else if verb in {LPOP, RPOP} {
      DecidePop(now, c, verb, cmd, k, op, ttl);
    } else {
      DecideRead(now, c, verb, cmd, k, op, ttl);
    }
  }

  lemma DecideRead(now: int, c: Cell, verb: Verb, cmd: Command, k: Bytes, op: KeyOp, ttl: map<Bytes, int>)
    requires CellOk(c) && cmd != [] && OpOf(verb, cmd) == Keyed(k, op) && !Mutating(verb)
    ensures LogMutation(verb, cmd, CellStep(now, c, op).1, ttl) == KeyedRecords(now, c, cmd, k, op)
  {
    hide ParseI64, ToString, CellStep;
    assert verb in {GET, TYPE, TTL, PTTL, LLEN, LRANGE};
  }

  /** A one-key command that is not logged left its cell alone. */
  lemma UnloggedUnchanged(now: int, c: Cell, cmd: Command, k: Bytes, op: KeyOp)
    requires CellOk(c) && KeyedRecords(now, c, cmd, k, op) == []
    ensures CellStep(now, c, op).0 == c
  {
  }

  // ---- what a whole command owes ------------------------------------------

  /** The records of a one-key event: the eviction its gate made, then the mutation. */
  lemma OwedKeyed(now: int, order: seq<Bytes>, s: Store, verb: Verb, cmd: Command, k: Bytes, op: KeyOp)
    requires WellFormed(s) && Read(cmd) == Run(verb, Keyed(k, op))
    ensures CellOk(Found(s, now, k))
    ensures Owed(now, order, s, cmd)
         == DelRecords(EvictedAt(s, now, k)) + KeyedRecords(now, Found(s, now, k), cmd, k, op)
  {
    assert CellOk(At(s, k));
    var c := Found(s, now, k);
    var c' := CellStep(now, c, op).0;
    AtPut(s, k, c', k);
    LogDecision(now, c, verb, cmd, k, op, Put(s, k, c').ttl);
  }

  /** The records of a command that is not about one key, from what it did. */
  function OtherRecords(now: int, s: Store, cmd: Command, op: Op): seq<Command> {
    if op.Del? then DelLogged(now, s, cmd, op.keys)
    else if op.FlushAll? then [cmd]
    else []
  }

  function DelLogged(now: int, s: Store, cmd: Command, keys: seq<Bytes>): seq<Command> {
    if DelLoop(now, s, keys).n == 0 then [] else [cmd]
  }

  lemma OwedMeans(now: int, order: seq<Bytes>, s: Store, verb: Verb, cmd: Command, op: Op)
    requires WellFormed(s) && Read(cmd) == Run(verb, op)
    ensures cmd != [] && op == OpOf(verb, cmd)
    ensures op.Keyed? ==> CellOk(At(s, op.key))
    ensures Answered(verb, cmd, Apply(now, order, s, op).reply)
    ensures var out := Apply(now, order, s, op);
            Owed(now, order, s, cmd) == DelRecords(out.evicted) + LogMutation(verb, cmd, out.reply, out.store.ttl)
  {
    hide OpOf, Apply, LogMutation;
    AnsweredAlways(now, order, s, verb, cmd);
  }

  lemma AnswerStays(now: int, order: seq<Bytes>, s: Store, op: Op)
    requires op.Answer?
    ensures Apply(now, order, s, op) == Outcome(s, op.reply, [])
  {
  }

  /** Which verb an operation that is not about one key came from. */
  lemma VerbsOfOps(verb: Verb, cmd: Command)
    requires cmd != []
    ensures OpOf(verb, cmd).Del? ==> verb == DEL
    ensures OpOf(verb, cmd).FlushAll? ==> verb == FLUSHALL
    ensures OpOf(verb, cmd).Exists? ==> verb == EXISTS
    ensures OpOf(verb, cmd).Keys? ==> verb == KEYS
    ensures OpOf(verb, cmd).DbSize? ==> verb == DBSIZE
  {
    hide ParseI64, ScanSetOptions, Upper, WrongArity, AnswerPing, AnswerConfig;
  }

  lemma DecideDel(now: int, order: seq<Bytes>, s: Store, cmd: Command, keys: seq<Bytes>)
    ensures var out := Apply(now, order, s, Del(keys));
            LogMutation(DEL, cmd, out.reply, out.store.ttl) == DelLogged(now, s, cmd, keys)
  {
    IntegerLiterals();
    IntegerInjective(DelLoop(now, s, keys).n, 0);
  }

  lemma DecideFlush(now: int, order: seq<Bytes>, s: Store, cmd: Command)
    ensures var out := Apply(now, order, s, FlushAll);
            LogMutation(FLUSHALL, cmd, out.reply, out.store.ttl) == [cmd]
  {
    IntegerLiterals();
  }

  predicate IsError(reply: Bytes) {
    reply != [] && reply[0] == '-'
  }

  lemma {:induction false} SetRejections(cmd: Command, i: nat, nx: bool, xx: bool, ms: Option<int>)
    ensures var r := ScanSetOptions(cmd, i, nx, xx, ms); r.Rejected? ==> IsError(r.reply)
    decreases |cmd| - i
  {
    hide ParseI64;
    if i < |cmd| {
      SetRejections(cmd, i + 1, true, xx, ms);
      SetRejections(cmd, i + 1, nx, true, ms);
      if i + 1 < |cmd| && ParseI64(cmd[i + 1]).Some? {
        var n := ParseI64(cmd[i + 1]).value;
        SetRejections(cmd, i + 2, nx, xx, Some(n * 1000));
        SetRejections(cmd, i + 2, nx, xx, Some(n));
      }
    }
  }

  lemma RejectionsAreErrors(verb: Verb, cmd: Command)
    requires cmd != [] && OpOf(verb, cmd).Answer?
    requires Mutating(verb) || verb == DEL || verb == FLUSHALL
    ensures IsError(OpOf(verb, cmd).reply)
  {
    hide Upper, ParseI64, ScanSetOptions, AnswerPing, AnswerConfig, ToString;
    if verb == SET && |cmd| >= 3 {
      SetRejections(cmd, 3, false, false, None);
    }
  }

  /** Errors and stateless answers are never logged. */
  lemma AnswersOweNothing(verb: Verb, cmd: Command, ttl: map<Bytes, int>)
    requires cmd != [] && OpOf(verb, cmd).Answer?
    ensures var reply := OpOf(verb, cmd).reply;
            Answered(verb, cmd, reply) && LogMutation(verb, cmd, reply, ttl) == []
  {
    hide OpOf;
    if Mutating(verb) || verb == DEL || verb == FLUSHALL {
      RejectionsAreErrors(verb, cmd);
    }
  }

  /** What a command that is not about one key owes. */
  lemma OwedOther(now: int, order: seq<Bytes>, s: Store, verb: Verb, cmd: Command, op: Op)
    requires WellFormed(s) && Read(cmd) == Run(verb, op) && !op.Keyed?
    ensures Owed(now, order, s, cmd) ==
            DelRecords(Apply(now, order, s, op).evicted) + OtherRecords(now, s, cmd, op)
  {
    hide Read, OpOf, Apply;
    OwedMeans(now, order, s, verb, cmd, op);
    VerbsOfOps(verb, cmd);
    match op {
      case Del(keys) =>
        DecideDel(now, order, s, cmd, keys);
      case FlushAll =>
        DecideFlush(now, order, s, cmd);
      case Answer(_) =>
        AnswerStays(now, order, s, op);
        AnswersOweNothing(verb, cmd, s.ttl);
      case Exists(_) =>
      case Keys(_) =>
      case DbSize =>
    }
  }

  /** A DEL that counts nothing removed no more than it evicted. */
  lemma NothingElseToDelete(now: int, s: Store, keys: seq<Bytes>)
    requires WellFormed(s) && DelLoop(now, s, keys).n == 0
    ensures DelLoop(now, s, keys).store == Without(s, Members(DelLoop(now, s, keys).evicted))
  {
    DelLoopMeans(now, s, keys);
    var a, b := Without(s, Members(keys)), Without(s, LapsedIn(s, now, keys));
    forall k
      ensures At(a, k) == At(b, k)
    {
      AtWithout(s, Members(keys), k);
      AtWithout(s, LapsedIn(s, now, keys), k);
      assert CellOk(At(s, k));
    }
    SameCells(a, b);
  }

  lemma SkippedKeyed(now: int, order: seq<Bytes>, s: Store, verb: Verb, cmd: Command, k: Bytes, op: KeyOp)
    requires WellFormed(s) && Read(cmd) == Run(verb, Keyed(k, op))
    requires Owed(now, order, s, cmd) == DelRecords(EvictedAt(s, now, k))
    ensures Perform(now, order, s, cmd).store == Without(s, Members(EvictedAt(s, now, k)))
  {
    hide CellStep, KeyedRecords;
    assert CellOk(At(s, k));
    OwedKeyed(now, order, s, verb, cmd, k, op);
    var c := Found(s, now, k);
    assert |KeyedRecords(now, c, cmd, k, op)| == 0;
    UnloggedUnchanged(now, c, cmd, k, op);
    TouchMeans(s, now, k);
  }

  lemma SkippedMeansUnchanged(now: int, order: seq<Bytes>, s: Store, cmd: Command)
    requires WellFormed(s) && Enumerates(order, s.db.Keys)
    requires Owed(now, order, s, cmd) == DelRecords(Perform(now, order, s, cmd).evicted)
    ensures var out := Perform(now, order, s, cmd); out.store == Without(s, Members(out.evicted))
  {
    hide CellStep, KeyedRecords;
    var read := Read(cmd);
    if !read.Run? {
      WithoutNone(s);
    } else if read.op.Keyed? {
      SkippedKeyed(now, order, s, read.verb, cmd, read.op.key, read.op.op);
    } else {
      OwedOther(now, order, s, read.verb, cmd, read.op);
      match read.op {
        case Answer(_) => WithoutNone(s);
        case DbSize => WithoutNone(s);
        case Exists(keys) => ExistsLoopMeans(now, s, keys);
        case Keys(pattern) => KeysLive(now, order, s, pattern);
        case Del(keys) => NothingElseToDelete(now, s, keys);
        case FlushAll => assert false;
      }
    }
  }

  // ---- what is not logged --------------------------------------------------

  /** The command reads, or its reply says that it was refused or found nothing to change. */
  predicate Idle(verb: Verb, reply: Bytes) {
    || IsError(reply)
    || verb in {PING, ECHO, GET, EXISTS, TTL, PTTL, TYPE, DBSIZE, KEYS, CONFIG, COMMAND, LRANGE, LLEN}
    || (verb in {SET, LPOP, RPOP} && reply == "$-1\r\n")
    || (verb in {EXPIRE, PEXPIRE, PEXPIREAT, PERSIST, DEL} && reply == ":0\r\n")
  }

  /** Such a command leaves nothing in the log but the evictions it happened to make. */
  lemma IdleOwesNothing(now: int, order: seq<Bytes>, s: Store, cmd: Command)
    requires WellFormed(s) && (Read(cmd).Run? ==> Idle(Read(cmd).verb, Perform(now, order, s, cmd).reply))
    ensures Owed(now, order, s, cmd) == DelRecords(Perform(now, order, s, cmd).evicted)
  {
    hide OpOf, Apply;
    var read := Read(cmd);
    if read.Run? {
      OwedMeans(now, order, s, read.verb, cmd, read.op);
    }
  }
}
