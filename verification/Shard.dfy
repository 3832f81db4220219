/**
 N reactor threads over one locked keyspace. A critical section is not atomic here:
 a thread takes the lock, reads the shared state, works on what it read, writes the
 result back and releases the lock, with steps of other threads in between.
 */
module Shard {
  import opened Base
  import opened Decimal
  import opened RespWriter
  import opened Keyspace
  import opened Commands
  import opened Execution
  import opened Recovery
  import opened Server
  import opened Sessions

  /** What a thread does inside the lock: its next command, or the maintenance tick. */
  datatype Job = Serve | Maintain

  datatype Pc =
    | Idle
    | Locked(job: Job)
    | Loaded(job: Job, copy: Server)
    | Stored

  /** A reactor: commands parsed but not executed, where it is, and the replies it has queued. */
  datatype Thread = Thread(todo: seq<Command>, pc: Pc, replies: seq<Bytes>)

  /** One critical section in lock order: who ran it, what it did, and the reply it produced. */
  datatype Section = Section(thread: nat, steps: seq<Step>, reply: seq<Bytes>)

  datatype System = System(shared: Server, lock: Option<nat>, threads: seq<Thread>, history: seq<Section>)

  datatype Action =
    | Lock(i: nat, job: Job)
    | Load(i: nat)
    | Finish(i: nat, steps: seq<Step>)
    | Unlock(i: nat)

  /** The steps a command or a tick amounts to. */
  predicate StepsOf(job: Job, todo: seq<Command>, steps: seq<Step>) {
    match job
    case Serve => |steps| == 1 && steps[0].Do? && steps[0].event.Exec? && todo != [] && steps[0].event.cmd == todo[0]
    case Maintain => |steps| == 2 && steps[0].Do? && steps[0].event.Cycle? && steps[1].Sync?
  }

  ghost function ReplyOf(sv: Server, job: Job, steps: seq<Step>): seq<Bytes>
    requires WellFormed(sv.store) && CanRun(sv, steps)
    requires job.Serve? ==> steps != [] && steps[0].Do? && steps[0].event.Exec?
  {
    if job.Serve? then [ReplyTo(sv, steps[0].event, steps[0].ios)] else []
  }

  ghost predicate Enabled(y: System, a: Action) {
    a.i < |y.threads| &&
    var t := y.threads[a.i];
    match a
    case Lock(i, job) =>
      y.lock.None? && t.pc.Idle? && (job.Serve? ==> t.todo != []) && (job.Maintain? ==> i == 0)
    case Load(i) => t.pc.Locked?
    case Finish(i, steps) =>
      t.pc.Loaded? && StepsOf(t.pc.job, t.todo, steps) && WellFormed(t.pc.copy.store) && CanRun(t.pc.copy, steps)
    case Unlock(i) => t.pc.Stored? && y.lock == Some(i)
  }

  ghost function Act(y: System, a: Action): System
    requires Enabled(y, a)
  {
    var t := y.threads[a.i];
    match a
    case Lock(i, job) =>
      y.(lock := Some(i), threads := y.threads[i := t.(pc := Locked(job))])
    case Load(i) =>
      y.(threads := y.threads[i := t.(pc := Loaded(t.pc.job, y.shared))])
    case Finish(i, steps) =>
      var reply := ReplyOf(t.pc.copy, t.pc.job, steps);
      var t' := Thread(if t.pc.job.Serve? then t.todo[1..] else t.todo, Stored, t.replies + reply);
      System(RunSteps(t.pc.copy, steps), y.lock, y.threads[i := t'], y.history + [Section(i, steps, reply)])
    case Unlock(i) =>
      y.(lock := None, threads := y.threads[i := t.(pc := Idle)])
  }

  ghost predicate Schedule(y: System, acts: seq<Action>)
    decreases |acts|
  {
    acts == [] || (Enabled(y, acts[0]) && Schedule(Act(y, acts[0]), acts[1..]))
  }

  ghost function Reach(y: System, acts: seq<Action>): System
    requires Schedule(y, acts)
    decreases |acts|
  {
    if acts == [] then y else Reach(Act(y, acts[0]), acts[1..])
  }

  // ---- the sequential run in lock order ------------------------------------

  function StepsIn(history: seq<Section>): seq<Step> {
    if history == [] then [] else StepsIn(history[..|history| - 1]) + history[|history| - 1].steps
  }

  /** The commands of thread i, and the replies it got, in lock order. */
  function CommandsOf(history: seq<Section>, i: nat): seq<Command> {
    if history == [] then []
    else
      var last := history[|history| - 1];
      CommandsOf(history[..|history| - 1], i) + if last.thread == i then CommandsIn(last.steps) else []
  }

  function CommandsIn(steps: seq<Step>): seq<Command> {
    if steps != [] && steps[0].Do? && steps[0].event.Exec? then [steps[0].event.cmd] else []
  }

  function RepliesOf(history: seq<Section>, i: nat): seq<Bytes> {
    if history == [] then []
    else
      var last := history[|history| - 1];
      RepliesOf(history[..|history| - 1], i) + if last.thread == i then last.reply else []
  }

  /** Every section replied what the sequential run replies at that point. */
  ghost predicate Faithful(init: Server, history: seq<Section>)
    requires WellFormed(init.store)
    decreases |history|
  {
    history == [] ||
    var before, last := history[..|history| - 1], history[|history| - 1];
    && Faithful(init, before)
    && CanRun(init, StepsIn(before))
    && CanRun(RunSteps(init, StepsIn(before)), last.steps)
    && last.reply == (if CommandsIn(last.steps) != [] then
                        [ReplyTo(RunSteps(init, StepsIn(before)), last.steps[0].event, last.steps[0].ios)]
                      else [])
  }

  // ---- the invariant -------------------------------------------------------

  /** Exactly the lock holder is inside, and what it has loaded is still current. */
  ghost predicate Exclusive(y: System) {
    && (y.lock.Some? ==> y.lock.value < |y.threads| && !y.threads[y.lock.value].pc.Idle?)
    && (forall i :: 0 <= i < |y.threads| && y.lock != Some(i) ==> y.threads[i].pc.Idle?)
    && (forall i :: 0 <= i < |y.threads| && y.threads[i].pc.Loaded? ==> y.threads[i].pc.copy == y.shared)
  }

  /** A section is one command, or an active cycle and a deferred fsync. */
  predicate Framed(sec: Section) {
    || (|sec.steps| == 1 && sec.steps[0].Do? && sec.steps[0].event.Exec?)
    || (|sec.steps| == 2 && sec.steps[0].Do? && sec.steps[0].event.Cycle? && sec.steps[1].Sync?)
  }

  /** The shared state is the sequential run of the history, and each thread has seen its part of it. */
  ghost predicate Linear(init: Server, work: seq<seq<Command>>, y: System)
    requires WellFormed(init.store)
  {
    && |work| == |y.threads|
    && CanRun(init, StepsIn(y.history)) && y.shared == RunSteps(init, StepsIn(y.history))
    && Faithful(init, y.history)
    && (forall m :: 0 <= m < |y.history| ==> Framed(y.history[m]) && y.history[m].thread < |work|)
    && (forall i :: 0 <= i < |work| ==> work[i] == CommandsOf(y.history, i) + y.threads[i].todo)
    && (forall i :: 0 <= i < |work| ==> y.threads[i].replies == RepliesOf(y.history, i))
  }

  lemma ActExclusive(y: System, a: Action)
    requires Exclusive(y) && Enabled(y, a)
    ensures Exclusive(Act(y, a))
  {
    hide CanRun, RunSteps, ReplyOf, StepsOf;
  }

  lemma {:induction false} CanRunAppend(sv: Server, a: seq<Step>, b: seq<Step>)
    requires WellFormed(sv.store) && CanRun(sv, a) && CanRun(RunSteps(sv, a), b)
    ensures CanRun(sv, a + b) && RunSteps(sv, a + b) == RunSteps(RunSteps(sv, a), b)
    decreases |a|
  {
    hide After;
    if a == [] {
      assert a + b == b;
    } else {
      assert (a + b)[1..] == a[1..] + b && (a + b)[0] == a[0];
      AfterWellFormed(sv, a[0]);
      CanRunAppend(After(sv, a[0]), a[1..], b);
    }
  }

  /** What one more section adds to a history. */
  lemma HistorySnoc(history: seq<Section>, sec: Section, i: nat)
    ensures var h := history + [sec];
            && StepsIn(h) == StepsIn(history) + sec.steps
            && CommandsOf(h, i) == CommandsOf(history, i) + (if sec.thread == i then CommandsIn(sec.steps) else [])
            && RepliesOf(h, i) == RepliesOf(history, i) + (if sec.thread == i then sec.reply else [])
  {
    var h := history + [sec];
    assert h[..|h| - 1] == history && h[|h| - 1] == sec;
  }

  lemma FaithfulSnoc(init: Server, history: seq<Section>, sec: Section)
    requires WellFormed(init.store) && Faithful(init, history) && CanRun(init, StepsIn(history))
    requires CanRun(RunSteps(init, StepsIn(history)), sec.steps)
    requires sec.reply == (if CommandsIn(sec.steps) != [] then
                             [ReplyTo(RunSteps(init, StepsIn(history)), sec.steps[0].event, sec.steps[0].ios)]
                           else [])
    ensures Faithful(init, history + [sec])
  {
    hide CanRun, RunSteps, ReplyTo, StepsIn;
    var h := history + [sec];
    assert h[..|h| - 1] == history && h[|h| - 1] == sec;
  }

  lemma FinishLinear(init: Server, work: seq<seq<Command>>, y: System, i: nat, steps: seq<Step>)
    requires WellFormed(init.store) && Exclusive(y) && Linear(init, work, y) && Enabled(y, Finish(i, steps))
    ensures Linear(init, work, Act(y, Finish(i, steps)))
  {
    hide CanRun, RunSteps, ReplyTo, Exclusive, StepsIn, CommandsOf, RepliesOf, Faithful;
    var t := y.threads[i];
    assert t.pc.copy == y.shared by {
      LoadedIsCurrent(y, i);
    }
    var reply := ReplyOf(t.pc.copy, t.pc.job, steps);
    var sec := Section(i, steps, reply);
    var h := y.history + [sec];
    CanRunAppend(init, StepsIn(y.history), steps);
    HistorySnoc(y.history, sec, i);
    FaithfulSnoc(init, y.history, sec);
    var z := Act(y, Finish(i, steps));
    forall j | 0 <= j < |work|
      ensures work[j] == CommandsOf(h, j) + z.threads[j].todo && z.threads[j].replies == RepliesOf(h, j)
    {
      HistorySnoc(y.history, sec, j);
      TodoMoves(CommandsOf(y.history, j), t.todo);
      assert CommandsOf(y.history, j) + [] == CommandsOf(y.history, j);
      assert RepliesOf(y.history, j) + [] == RepliesOf(y.history, j);
    }
  }

  /** The next command moves from what is to be done to what is done. */
  lemma TodoMoves(done: seq<Command>, todo: seq<Command>)
    ensures todo != [] ==> done + todo == (done + [todo[0]]) + todo[1..]
  {
  }

  lemma LoadedIsCurrent(y: System, i: nat)
    requires Exclusive(y) && i < |y.threads| && y.threads[i].pc.Loaded?
    ensures y.threads[i].pc.copy == y.shared
  {
  }

  lemma ActLinear(init: Server, work: seq<seq<Command>>, y: System, a: Action)
    requires WellFormed(init.store) && Exclusive(y) && Linear(init, work, y) && Enabled(y, a)
    ensures Linear(init, work, Act(y, a))
  {
    hide CanRun, RunSteps, Faithful, StepsIn, CommandsOf, RepliesOf, Exclusive;
    match a {
      case Lock(_, _) =>
      case Load(_) =>
      case Unlock(_) =>
      case Finish(i, steps) => FinishLinear(init, work, y, i, steps);
    }
  }

  /** A system about to start: nobody in the lock, nothing executed. */
  ghost predicate Fresh(init: Server, work: seq<seq<Command>>, y: System) {
    && y.shared == init && y.lock.None? && y.history == [] && |work| == |y.threads|
    && forall i :: 0 <= i < |work| ==> y.threads[i] == Thread(work[i], Idle, [])
  }

  lemma FreshLinear(init: Server, work: seq<seq<Command>>, y: System)
    requires WellFormed(init.store) && Fresh(init, work, y)
    ensures Exclusive(y) && Linear(init, work, y)
  {
    forall i | 0 <= i < |work|
      ensures work[i] == CommandsOf(y.history, i) + y.threads[i].todo
    {
      assert [] + work[i] == work[i];
    }
  }

  lemma {:induction false} ReachLinear(init: Server, work: seq<seq<Command>>, y: System, acts: seq<Action>)
    requires WellFormed(init.store) && Exclusive(y) && Linear(init, work, y) && Schedule(y, acts)
    ensures Exclusive(Reach(y, acts)) && Linear(init, work, Reach(y, acts))
    decreases |acts|
  {
    hide Exclusive, Linear, Act, Enabled;
    if acts != [] {
      ActExclusive(y, acts[0]);
      ActLinear(init, work, y, acts[0]);
      ReachLinear(init, work, Act(y, acts[0]), acts[1..]);
    }
  }

  /**
   Linearizability. Under every interleaving of the threads' steps, the keyspace, the TTL
   table and the log are those of the sequential run in lock order, every reply is the one
   that run gives, and each thread's commands run and are answered in the order it read them.
   */
  lemma Linearizable(init: Server, work: seq<seq<Command>>, y: System, acts: seq<Action>)
    requires WellFormed(init.store) && Fresh(init, work, y) && Schedule(y, acts)
    ensures Linear(init, work, Reach(y, acts))
  {
    FreshLinear(init, work, y);
    ReachLinear(init, work, y, acts);
  }

  // ---- no lost updates -----------------------------------------------------

  predicate IncrCommand(cmd: Command, k: Bytes) {
    Read(cmd) == Run(INCR, Keyed(k, IncrBy(1)))
  }

  predicate Increment(e: Event, k: Bytes) {
    e.Exec? && IncrCommand(e.cmd, k)
  }

  /** A counter that has been incremented n times from nothing. */
  function Counter(n: nat): Cell {
    if n == 0 then GONE else Cell(Some(Str(ToString(n))), None)
  }

  lemma Incremented(now: int, order: seq<Bytes>, s: Store, cmd: Command, k: Bytes, n: nat)
    requires WellFormed(s) && Read(cmd) == Run(INCR, Keyed(k, IncrBy(1)))
    requires At(s, k) == Counter(n) && InI64(n + 1)
    ensures var out := Perform(now, order, s, cmd);
            At(out.store, k) == Counter(n + 1) && out.reply == Integer(n + 1)
  {
    hide ToString, ParseI64, Integer, Read;
    PrintParse(n);
    PerformKeyed(now, order, s, cmd, INCR, k, IncrBy(1));
    AtPut(s, k, CellStep(now, Found(s, now, k), IncrBy(1)).0, k);
  }

  /** A section that increments k, or leaves it alone. */
  predicate SectionOn(sec: Section, k: Bytes) {
    Framed(sec) && (Increment(sec.steps[0].event, k) || LeavesAlone(sec.steps[0].event, k))
  }

  predicate IncrSection(sec: Section, k: Bytes) {
    |sec.steps| == 1 && sec.steps[0].Do? && Increment(sec.steps[0].event, k)
  }

  function IncrCount(history: seq<Section>, k: Bytes): nat {
    if history == [] then 0
    else IncrCount(history[..|history| - 1], k) + if IncrSection(history[|history| - 1], k) then 1 else 0
  }

  /** The replies to the increments of k, in lock order. */
  function IncrReplies(history: seq<Section>, k: Bytes): seq<Bytes> {
    if history == [] then []
    else
      var last := history[|history| - 1];
      IncrReplies(history[..|history| - 1], k) + if IncrSection(last, k) then last.reply else []
  }

  /** The replies 1, 2, ..., n. */
  function UpTo(n: nat): seq<Bytes> {
    if n == 0 then [] else UpTo(n - 1) + [Integer(n)]
  }

  /** A section that did not fail takes the counter one further, or leaves it. */
  lemma SectionCounts(sv: Server, sec: Section, k: Bytes, n: nat)
    requires WellFormed(sv.store) && CanRun(sv, sec.steps) && SectionOn(sec, k)
    requires At(sv.store, k) == Counter(n) && (IncrSection(sec, k) ==> InI64(n + 1))
    requires !RunSteps(sv, sec.steps).failed
    ensures !sv.failed
    ensures At(RunSteps(sv, sec.steps).store, k) == Counter(if IncrSection(sec, k) then n + 1 else n)
    ensures IncrSection(sec, k) ==> ReplyTo(sv, sec.steps[0].event, sec.steps[0].ios) == Integer(n + 1)
  {
    hide ToString, Integer, Read, Possible, Perform, Owes;
    var st := sec.steps[0];
    AfterWellFormed(sv, st);
    if sv.failed {
      FailedStays(sv, sec.steps);
    }
    var sv1 := After(sv, st);
    DoStores(sv, st);
    if |sec.steps| == 1 {
      assert sec.steps[1..] == [];
      assert RunSteps(sv, sec.steps) == sv1;
      if Increment(st.event, k) {
        Incremented(st.event.now, st.event.order, sv.store, st.event.cmd, k, n);
      } else {
        LeftAlone(sv.store, st.event, k);
      }
    } else {
      assert sec.steps[1..] == [sec.steps[1]];
      RunOne(sv1, sec.steps[1]);
      LeftAlone(sv.store, st.event, k);
    }
  }

  lemma DoStores(sv: Server, st: Step)
    requires WellFormed(sv.store) && Can(sv, st) && st.Do? && !sv.failed
    ensures After(sv, st).store == Next(sv.store, st.event)
  {
    hide Next, Owes;
    PutRecordsFrame(sv.(store := Next(sv.store, st.event)), Owes(sv.store, st.event), st.ios);
  }

  lemma {:induction false} HistoryCounts(init: Server, history: seq<Section>, k: Bytes)
    requires WellFormed(init.store) && At(init.store, k) == GONE && !init.failed
    requires CanRun(init, StepsIn(history)) && Faithful(init, history) && InI64(IncrCount(history, k))
    requires forall m :: 0 <= m < |history| ==> SectionOn(history[m], k)
    requires !RunSteps(init, StepsIn(history)).failed
    ensures var n := IncrCount(history, k);
            && At(RunSteps(init, StepsIn(history)).store, k) == Counter(n)
            && IncrReplies(history, k) == UpTo(n)
    decreases |history|
  {
    hide CanRun, RunSteps, ToString, Integer, ReplyTo, SectionOn, Increment, CommandsIn;
    if history == [] {
      RunNone(init);
    } else {
      var before, last := history[..|history| - 1], history[|history| - 1];
      var mid := RunSteps(init, StepsIn(before));
      CanRunAppend(init, StepsIn(before), last.steps);
      if mid.failed {
        FailedStays(mid, last.steps);
      }
      assert forall m :: 0 <= m < |before| ==> before[m] == history[m];
      HistoryCounts(init, before, k);
      SectionCounts(mid, last, k, IncrCount(before, k));
      IncrementsHaveReply(last, k);
    }
  }

  lemma IncrementsHaveReply(sec: Section, k: Bytes)
    ensures IncrSection(sec, k) ==> CommandsIn(sec.steps) != []
  {
  }

  lemma RunNone(sv: Server)
    requires WellFormed(sv.store)
    ensures CanRun(sv, []) && RunSteps(sv, []) == sv
  {
  }

  lemma RunOne(sv: Server, st: Step)
    requires WellFormed(sv.store) && CanRun(sv, [st])
    ensures RunSteps(sv, [st]) == After(sv, st)
  {
    AfterWellFormed(sv, st);
    assert [st][1..] == [];
  }

  lemma FailedStays(sv: Server, steps: seq<Step>)
    requires WellFormed(sv.store) && CanRun(sv, steps) && sv.failed
    ensures RunSteps(sv, steps).failed
  {
    FailureLatch(sv, steps, |steps|);
    assert steps[..|steps|] == steps;
  }

  // ---- counting the increments the clients asked for -----------------------

  function Incrs(cmds: seq<Command>, k: Bytes): nat {
    if cmds == [] then 0 else (if IncrCommand(cmds[0], k) then 1 else 0) + Incrs(cmds[1..], k)
  }

  /** The increments of k in all threads' commands. */
  function IncrsOf(work: seq<seq<Command>>, k: Bytes): nat {
    if work == [] then 0 else Incrs(work[0], k) + IncrsOf(work[1..], k)
  }

  lemma {:induction false} IncrsAppend(a: seq<Command>, b: seq<Command>, k: Bytes)
    ensures Incrs(a + b, k) == Incrs(a, k) + Incrs(b, k)
  {
    if a == [] {
      assert a + b == b;
    } else {
      assert (a + b)[1..] == a[1..] + b;
      IncrsAppend(a[1..], b, k);
    }
  }

  lemma {:induction false} IncrsOfAppend(a: seq<seq<Command>>, b: seq<seq<Command>>, work: seq<seq<Command>>, k: Bytes)
    requires |a| == |b| == |work| && forall i :: 0 <= i < |work| ==> work[i] == a[i] + b[i]
    ensures IncrsOf(work, k) == IncrsOf(a, k) + IncrsOf(b, k)
  {
    if work != [] {
      IncrsAppend(a[0], b[0], k);
      IncrsOfAppend(a[1..], b[1..], work[1..], k);
    }
  }

  lemma {:induction false} IncrsOfNone(work: seq<seq<Command>>, k: Bytes)
    requires forall i :: 0 <= i < |work| ==> work[i] == []
    ensures IncrsOf(work, k) == 0
  {
    if work != [] {
      IncrsOfNone(work[1..], k);
    }
  }

  /** One thread's commands and nothing else. */
  function Alone(n: nat, t: nat, cmds: seq<Command>): (r: seq<seq<Command>>)
    ensures |r| == n
  {
    seq(n, i => if i == t then cmds else [])
  }

  lemma {:induction false} IncrsAlone(n: nat, t: nat, cmds: seq<Command>, k: Bytes)
    requires t < n
    ensures IncrsOf(Alone(n, t, cmds), k) == Incrs(cmds, k)
    decreases n
  {
    var all := Alone(n, t, cmds);
    if t == 0 {
      IncrsOfNone(all[1..], k);
    } else {
      assert all[1..] == Alone(n - 1, t - 1, cmds);
      IncrsAlone(n - 1, t - 1, cmds, k);
    }
  }

  /** What every thread has executed. */
  function Executed(history: seq<Section>, n: nat): (r: seq<seq<Command>>)
    ensures |r| == n && forall i :: 0 <= i < n ==> r[i] == CommandsOf(history, i)
  {
    seq(n, i requires 0 <= i < n => CommandsOf(history, i))
  }

  /** The increments in the history are those the threads have executed. */
  lemma {:induction false} CountExecuted(history: seq<Section>, n: nat, k: Bytes)
    requires forall m :: 0 <= m < |history| ==> Framed(history[m]) && history[m].thread < n
    ensures IncrCount(history, k) == IncrsOf(Executed(history, n), k)
    decreases |history|
  {
    hide IncrCommand;
    if history == [] {
      IncrsOfNone(Executed(history, n), k);
    } else {
      var before, last := history[..|history| - 1], history[|history| - 1];
      CountExecuted(before, n, k);
      var news := CommandsIn(last.steps);
      IncrsOfAppend(Executed(before, n), Alone(n, last.thread, news), Executed(history, n), k);
      IncrsAlone(n, last.thread, news, k);
      assert Incrs(news, k) == if IncrSection(last, k) then 1 else 0;
    }
  }

  /** A command of the history is one of the commands its thread has executed. */
  lemma {:induction false} CommandListed(history: seq<Section>, m: nat)
    requires m < |history| && CommandsIn(history[m].steps) != []
    ensures history[m].steps[0].event.cmd in CommandsOf(history, history[m].thread)
    decreases |history|
  {
    var n := |history| - 1;
    if m < n {
      assert history[..n][m] == history[m];
      CommandListed(history[..n], m);
    }
  }

  /** Every command any client sends either increments k or does not write it. */
  predicate OnlyIncrements(work: seq<seq<Command>>, k: Bytes) {
    forall i, c :: 0 <= i < |work| && c in work[i] ==> IncrCommand(c, k) || OtherCommand(c, k)
  }

  lemma {:induction false} SectionsOn(work: seq<seq<Command>>, history: seq<Section>, todo: seq<seq<Command>>, k: Bytes)
    requires OnlyIncrements(work, k) && |todo| == |work|
    requires forall m :: 0 <= m < |history| ==> Framed(history[m]) && history[m].thread < |work|
    requires forall i :: 0 <= i < |work| ==> work[i] == CommandsOf(history, i) + todo[i]
    ensures forall m :: 0 <= m < |history| ==> SectionOn(history[m], k)
  {
    hide IncrCommand, OtherCommand, CommandsOf;
    forall m | 0 <= m < |history|
      ensures SectionOn(history[m], k)
    {
      var sec := history[m];
      if CommandsIn(sec.steps) != [] {
        CommandListed(history, m);
        assert sec.steps[0].event.cmd in work[sec.thread];
      }
    }
  }

  function Todos(y: System): seq<seq<Command>> {
    seq(|y.threads|, i requires 0 <= i < |y.threads| => y.threads[i].todo)
  }

  /**
   No lost updates. The clients of all threads send INCRs of a fresh key, and no other
   command that writes it. Under any interleaving, and as long as persistence has not failed:
   the replies to the INCRs executed so far are, in lock order, exactly 1, 2, ..., K, the key
   holds the decimal of K, and K is the INCRs sent less those still waiting. When nothing is
   waiting, K is the number of INCRs the clients sent.
   */
  lemma NoLostUpdates(init: Server, work: seq<seq<Command>>, y: System, acts: seq<Action>, k: Bytes)
    requires WellFormed(init.store) && Fresh(init, work, y) && Schedule(y, acts)
    requires At(init.store, k) == GONE && !init.failed && !Reach(y, acts).shared.failed
    requires OnlyIncrements(work, k) && InI64(IncrsOf(work, k))
    ensures var end := Reach(y, acts);
            var n := IncrCount(end.history, k);
            && IncrReplies(end.history, k) == UpTo(n)
            && At(end.shared.store, k) == Counter(n)
            && n + IncrsOf(Todos(end), k) == IncrsOf(work, k)
            && ((forall i :: 0 <= i < |end.threads| ==> end.threads[i].todo == []) ==> n == IncrsOf(work, k))
  {
    hide Reach, Schedule, SectionOn, Faithful, Fresh, OnlyIncrements, CanRun, RunSteps, CommandsOf;
    Linearizable(init, work, y, acts);
    var end := Reach(y, acts);
    var todo := Todos(end);
    SectionsOn(work, end.history, todo, k);
    CountExecuted(end.history, |work|, k);
    IncrsOfAppend(Executed(end.history, |work|), todo, work, k);
    if forall i :: 0 <= i < |end.threads| ==> end.threads[i].todo == [] {
      IncrsOfNone(todo, k);
    }
    HistoryCounts(init, end.history, k);
  }
}
