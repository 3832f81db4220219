/**
 The limits of the log. A run is safe to replay when every command the clients send is within
 the limits replay enforces; array framing keeps a command within them, inline framing does not.
 */
module Limits {
  import opened Base
  import opened Decimal
  import opened RespWriter
  import opened RespParser
  import Parsing = RespParser
  import opened WalFormat
  import opened Keyspace
  import opened Commands
  import opened Laws
  import opened Execution
  import opened Logging
  import opened Recovery
  import opened Wal
  import opened Server
  import opened Durability

  predicate Within(cmd: Command) {
    Encodable(REPLAY_FRAME_CAP, cmd)
  }

  predicate KeyFits(k: Bytes) {
    |k| + 2 <= REPLAY_FRAME_CAP
  }

  ghost predicate KeysFit(s: Store) {
    forall k :: k in s.db ==> KeyFits(k)
  }

  /** The arguments a handler acts on are arguments of the command. */
  lemma KeyIsArgument(verb: Verb, cmd: Command)
    requires cmd != [] && OpOf(verb, cmd).Keyed?
    ensures |cmd| >= 2 && OpOf(verb, cmd).key == cmd[1]
    ensures OpOf(verb, cmd).op.Set? ==> |cmd| >= 3 && OpOf(verb, cmd).op.value == cmd[2]
  {
    hide ParseI64, Upper, AnswerPing, AnswerConfig, WrongArity, ScanSetOptions;
  }

  lemma DelsFit(keys: seq<Bytes>)
    requires forall k :: k in keys ==> KeyFits(k)
    ensures AllEncodable(REPLAY_FRAME_CAP, DelRecords(keys))
  {
    forall i | 0 <= i < |keys|
      ensures Encodable(REPLAY_FRAME_CAP, DelRecord(keys[i]))
    {
      assert KeyFits(keys[i]);
    }
  }

  /** The records written in place of a command are as small as the command. */
  lemma RecordsFit(now: int, c: Cell, cmd: Command, k: Bytes, op: KeyOp)
    requires CellOk(c) && DeadlineFits(now, c, op) && Within(cmd)
    requires |cmd| >= 2 && cmd[1] == k && (op.Set? ==> |cmd| >= 3 && op.value == cmd[2])
    ensures AllEncodable(REPLAY_FRAME_CAP, KeyedRecords(now, c, cmd, k, op))
  {
    hide CellStep, ToString;
    var d := CellStep(now, c, op).0.deadline;
    if d.Some? {
      DeadlineLength(d.value);
    }
  }

  lemma DeadlineLength(n: int)
    requires InI64(n)
    ensures KeyFits(ToString(n))
  {
    hide NatToString;
    if n < 0 {
      PowerOfTen();
      PrintedLength(-n, 19);
    } else {
      HeaderLength(n);
    }
  }

  /** What lapses is in the store, so its key fits. */
  lemma EvictedFit(s: Store, now: int, keys: seq<Bytes>)
    requires WellFormed(s) && KeysFit(s) && EvictsOnce(s, now, keys)
    ensures AllEncodable(REPLAY_FRAME_CAP, DelRecords(keys))
  {
    forall k | k in keys
      ensures KeyFits(k)
    {
      assert Lapsed(At(s, k), now);
      assert CellOk(At(s, k));
      assert k in s.db;
    }
    DelsFit(keys);
  }

  /** One event within the limits writes records within the limits, and leaves keys that fit. */
  lemma StepWithin(s: Store, e: Event)
    requires WellFormed(s) && KeysFit(s) && Possible(s, e) && Fits(s, e) && (e.Exec? ==> Within(e.cmd))
    ensures AllEncodable(REPLAY_FRAME_CAP, Owes(s, e)) && KeysFit(Next(s, e))
  {
    hide Within, CellStep, KeyedRecords;
    match e {
      case Cycle(now, keys) =>
        EvictedFit(s, now, keys);
      case Exec(now, order, cmd) =>
        if Read(cmd).Run? {
          CommandWithin(now, order, s, cmd);
        }
    }
  }

  lemma CommandWithin(now: int, order: seq<Bytes>, s: Store, cmd: Command)
    requires WellFormed(s) && KeysFit(s) && Enumerates(order, s.db.Keys) && Within(cmd) && Read(cmd).Run?
    requires Fits(s, Exec(now, order, cmd))
    ensures AllEncodable(REPLAY_FRAME_CAP, Owed(now, order, s, cmd)) && KeysFit(Perform(now, order, s, cmd).store)
  {
    hide CellStep, KeyedRecords, OpOf, DeadlineFits;
    var verb, op := Read(cmd).verb, Read(cmd).op;
    PerformWellFormed(now, order, s, cmd);
    EvictedFit(s, now, Perform(now, order, s, cmd).evicted);
    if op.Keyed? {
      assert CellOk(At(s, op.key));
      KeyIsArgument(verb, cmd);
      OwedKeyed(now, order, s, verb, cmd, op.key, op.op);
      RecordsFit(now, Found(s, now, op.key), cmd, op.key, op.op);
      assert KeyFits(cmd[1]);
    } else {
      OwedOther(now, order, s, verb, cmd, op);
      KeysKept(now, order, s, op);
    }
  }

  lemma KeysKept(now: int, order: seq<Bytes>, s: Store, op: Op)
    requires WellFormed(s) && Distinct(order) && !op.Keyed?
    ensures Apply(now, order, s, op).store.db.Keys <= s.db.Keys
  {
    match op {
      case Answer(_) =>
      case DbSize =>
      case FlushAll =>
      case Del(keys) =>
        DelLoopMeans(now, s, keys);
      case Exists(keys) =>
        ExistsLoopMeans(now, s, keys);
      case Keys(pattern) =>
        FilterMeans(pattern, order);
        KeysLoopMeans(now, s, Filter(pattern, order));
    }
  }

  /** Every command of the run is within the limits. */
  predicate EventsWithin(es: seq<Event>) {
    forall i :: 0 <= i < |es| && es[i].Exec? ==> Within(es[i].cmd)
  }

  lemma {:induction false} RunWithin(s: Store, es: seq<Event>)
    requires WellFormed(s) && KeysFit(s) && PossibleRun(s, es) && EventsWithin(es)
    ensures AllEncodable(REPLAY_FRAME_CAP, AllOwed(s, es))
    decreases |es|
  {
    hide Next, Owes, Possible, Fits, Within;
    if es != [] {
      NextWellFormed(s, es[0]);
      StepWithin(s, es[0]);
      RunWithin(Next(s, es[0]), es[1..]);
    }
  }

  predicate StepsWithin(steps: seq<Step>) {
    forall i :: 0 <= i < |steps| && steps[i].Do? && steps[i].event.Exec? ==> Within(steps[i].event.cmd)
  }

  lemma {:induction false} LoggedWithin(sv: Server, steps: seq<Step>)
    requires WellFormed(sv.store) && CanRun(sv, steps) && StepsWithin(steps)
    ensures EventsWithin(LoggedEvents(sv, steps))
    decreases |steps|
  {
    hide After, Next, Owes, Fits, Possible, Within;
    if steps != [] && !sv.failed {
      AfterWellFormed(sv, steps[0]);
      LoggedWithin(After(sv, steps[0]), steps[1..]);
    }
  }

  /**
   What a caller can check beforehand: if every command the clients send is within the limits,
   and so is what the log and the keyspace held before, everything the run logs can be replayed.
   */
  lemma LimitsSuffice(sv: Server, steps: seq<Step>)
    requires Sound(sv) && !sv.failed && CanRun(sv, steps) && StepsWithin(steps)
    requires AllEncodable(REPLAY_FRAME_CAP, sv.wal.records) && KeysFit(sv.store)
    ensures Loggable(sv, steps)
  {
    hide Shaped, CanRun, RunSteps, LoggedEvents, AllOwed, Within;
    LogHoldsRun(sv, steps);
    LoggedWithin(sv, steps);
    RunWithin(sv.store, LoggedEvents(sv, steps));
  }

  /** A connection's frame limit, when it is no larger than replay's, keeps every array within the limits. */
  lemma ArraysAreWithin(max: nat, buf: Bytes)
    requires max <= REPLAY_FRAME_CAP
    ensures var p := Parsing.Run(max, Line, buf);
            p.Parsed? ==> forall c :: c in p.cmds ==> Within(c) || Inline(c)
  {
    hide Parsing.Run, Inline;
    RunFrames(max, Line, buf);
    assert forall c :: Encodable(max, c) ==> Within(c);
  }

  // ---- the limits can be broken --------------------------------------------

  /** RPUSH k x x ... x, with n values. */
  function ManyPushed(n: nat): (cmd: Command)
    ensures |cmd| == n + 2
  {
    ["RPUSH", "k"] + seq(n, _ => "x")
  }

  lemma ManyPushedReads(n: nat)
    requires n > 0
    ensures Read(ManyPushed(n)) == Run(RPUSH, Keyed("k", Push(seq(n, _ => "x"), false)))
  {
    var cmd := ManyPushed(n);
    assert Upper("RPUSH") == "RPUSH";
    assert cmd[2..] == seq(n, _ => "x");
  }

  /**
   A command over the argument limit, typed inline, is parsed whatever the frame limit, run on
   an empty server, answered with the length of the list and logged; and the log it leaves is
   refused by replay.
   */
  lemma OverLimitExample(max: nat, now: int, n: nat)
    requires n + 2 > MAX_ARGS
    ensures WellFormed(EMPTY)
    ensures var cmd := ManyPushed(n);
            && Parsing.Run(max, Line, Join(cmd) + CRLF) == Parsed([cmd], Line, [])
            && Perform(now, [], EMPTY, cmd).reply == Integer(n)
            && Owed(now, [], EMPTY, cmd) == [cmd]
            && Refused(EncodeAll([cmd]))
  {
    hide Parsing.Run, Read, Join, Encode, Integer;
    WellFormedMeans(EMPTY);
    var cmd, op := ManyPushed(n), Push(seq(n, _ => "x"), false);
    assert OneLine(cmd);
    InlineParses(max, cmd);
    ManyPushedReads(n);
    OwedKeyed(now, [], EMPTY, RPUSH, cmd, "k", op);
    assert Pushed([], op.values, false) == op.values;
    assert DelRecords([]) + [cmd] == [cmd];
    EncodeAllOne(cmd);
    RecordRefused(REPLAY_FRAME_CAP, cmd, []);
    assert Encode(cmd) + [] == Encode(cmd) && [] + Encode(cmd) == Encode(cmd);
  }
}
