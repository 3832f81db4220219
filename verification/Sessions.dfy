/**
 What clients can rely on over whole runs, on the bytes of the replies: what was written is
 read back until someone writes the key or its deadline comes; increments add up; and a list
 used as a queue gives every value back once, in order.
 */
module Sessions {
  import opened Base
  import opened Decimal
  import opened RespWriter
  import opened Keyspace
  import opened Commands
  import opened Laws
  import opened Execution
  import opened Recovery
  import opened Replies
  import opened SetWords

  // ---- events that leave a key alone ---------------------------------------

  predicate ReadsOnly(op: KeyOp) {
    op.Get? || op.Type? || op.Ttl? || op.Len? || op.Range?
  }

  /** A command that does not write k. */
  predicate OtherOp(op: Op, k: Bytes) {
    match op
    case Keyed(j, kop) => j != k || ReadsOnly(kop)
    case Del(keys) => k !in keys
    case FlushAll => false
    case _ => true
  }

  predicate OtherCommand(cmd: Command, k: Bytes) {
    Read(cmd).Run? ==> OtherOp(Read(cmd).op, k)
  }

  predicate LeavesAlone(e: Event, k: Bytes) {
    e.Cycle? || OtherCommand(e.cmd, k)
  }

  /** The key is as it was, or it had lapsed and is gone. */
  predicate StaysOrLapses(c: Cell, now: int, c': Cell) {
    c' == c || (Lapsed(c, now) && c' == GONE)
  }

  lemma Evicted(s: Store, now: int, keys: seq<Bytes>, k: Bytes)
    requires EvictsOnce(s, now, keys)
    ensures StaysOrLapses(At(s, k), now, At(Without(s, Members(keys)), k))
  {
    AtWithout(s, Members(keys), k);
  }

  lemma ReadsKeep(now: int, c: Cell, op: KeyOp)
    requires CellOk(c) && ReadsOnly(op)
    ensures CellStep(now, c, op).0 == c
  {
  }

  /** A key that nobody writes stays as it is until it lapses. */
  lemma LeftAlone(s: Store, e: Event, k: Bytes)
    requires WellFormed(s) && Possible(s, e) && LeavesAlone(e, k)
    ensures StaysOrLapses(At(s, k), e.now, At(Next(s, e), k))
  {
    hide CellStep;
    if e.Cycle? {
      Evicted(s, e.now, e.keys, k);
    } else if Read(e.cmd).Run? {
      var op := Read(e.cmd).op;
      match op {
        case Answer(_) =>
        case DbSize =>
        case Keyed(j, kop) =>
          assert CellOk(At(s, j));
          AtPut(s, j, CellStep(e.now, Found(s, e.now, j), kop).0, k);
          if j == k {
            ReadsKeep(e.now, Found(s, e.now, k), kop);
          }
        case Del(keys) =>
          DelLoopMeans(e.now, s, keys);
          AtWithout(s, Members(keys), k);
        case Exists(keys) =>
          ExistsLoopMeans(e.now, s, keys);
          Evicted(s, e.now, ExistsLoop(e.now, s, keys).evicted, k);
        case Keys(pattern) =>
          KeysLive(e.now, e.order, s, pattern);
          Evicted(s, e.now, KeysLoop(e.now, s, Filter(pattern, e.order)).evicted, k);
      }
    }
  }

  /** Every event comes before the deadline, if there is one. */
  predicate Ahead(deadline: Option<int>, es: seq<Event>) {
    deadline.Some? ==> forall i :: 0 <= i < |es| ==> es[i].now < deadline.value
  }

  predicate AllLeave(es: seq<Event>, k: Bytes) {
    forall i :: 0 <= i < |es| ==> LeavesAlone(es[i], k)
  }

  lemma {:induction false} LeftAloneRun(s: Store, es: seq<Event>, k: Bytes)
    requires WellFormed(s) && PossibleRun(s, es) && AllLeave(es, k)
    ensures var c, c' := At(s, k), At(Final(s, es), k);
            && (c' == c || (c' == GONE && c.deadline.Some?))
            && (Ahead(c.deadline, es) ==> c' == c)
    decreases |es|
  {
    hide Next, Possible, Fits, LeavesAlone;
    if es != [] {
      NextWellFormed(s, es[0]);
      LeftAlone(s, es[0], k);
      LeftAloneRun(Next(s, es[0]), es[1..], k);
    }
  }

  // ---- reading back --------------------------------------------------------

  /** The reply to a command after a run. */
  ghost function ReplyAfter(s: Store, es: seq<Event>, now: int, order: seq<Bytes>, cmd: Command): Bytes
    requires WellFormed(s) && PossibleRun(s, es)
  {
    Perform(now, order, Final(s, es), cmd).reply
  }

  /** The key is there until its deadline, and from then on it is not. */
  lemma AliveAfter(s: Store, es: seq<Event>, k: Bytes, now: int)
    requires WellFormed(s) && PossibleRun(s, es) && AllLeave(es, k) && At(s, k).value.Some?
    ensures var c, end := At(s, k), Final(s, es);
            && (c.deadline.Some? && c.deadline.value <= now ==> !Alive(end, now, k))
            && (Ahead(c.deadline, es) && (c.deadline.Some? ==> now < c.deadline.value) ==>
                  Alive(end, now, k) && end.db[k] == c.value.value && Lookup(end.ttl, k) == c.deadline)
  {
    hide PossibleRun, Final;
    LeftAloneRun(s, es, k);
  }

  /**
   A string that was stored is read back, byte for byte, after any commands that do not write
   the key, as long as its deadline has not come; from then on the answer is the null bulk.
   */
  lemma ReadYourWrite(s: Store, now: int, order: seq<Bytes>, set_: Command, wishes: seq<Wish>,
                      es: seq<Event>, later: int, order': seq<Bytes>, get: Command)
    requires WellFormed(s) && Enumerates(order, s.db.Keys) && |set_| >= 3 && Called(set_, SET, |set_|)
    requires Writes(set_[3..], wishes) && Agree(wishes, false, false, false)
    requires Perform(now, order, s, set_).reply == OK_REPLY
    requires var stored := Perform(now, order, s, set_).store;
             WellFormed(stored) && PossibleRun(stored, es) && AllLeave(es, set_[1])
    requires Called(get, GET, 2) && get[1] == set_[1]
    ensures var reply := ReplyAfter(Perform(now, order, s, set_).store, es, later, order', get);
            var ms := Expiry(wishes);
            && (ms.None? ==> reply == BulkReply(set_[2]))
            && (ms.Some? && later < now + ms.value && Ahead(Some(now + ms.value), es) ==> reply == BulkReply(set_[2]))
            && (ms.Some? && now + ms.value <= later ==> reply == NULL_REPLY)
  {
    hide Perform, PossibleRun, Final, Called, Writes, Agree, Kept, OnlyAt;
    SetReply(now, order, s, set_, wishes);
    var stored := Perform(now, order, s, set_).store;
    AliveAfter(stored, es, set_[1], later);
    GetReply(later, order', Final(stored, es), get);
  }

  /** A deadline that was set is what TTL and PTTL count down to, until the key is written or gone. */
  lemma DeadlineReadBack(s: Store, now: int, order: seq<Bytes>, expire: Command,
                         es: seq<Event>, later: int, order': seq<Bytes>, ttl: Command)
    requires WellFormed(s) && Enumerates(order, s.db.Keys) && Asked(now, expire).Some? && now < Asked(now, expire).value
    requires Perform(now, order, s, expire).reply == ":1\r\n"
    requires var armed := Perform(now, order, s, expire).store;
             WellFormed(armed) && PossibleRun(armed, es) && AllLeave(es, expire[1])
    requires (Called(ttl, TTL, 2) || Called(ttl, PTTL, 2)) && ttl[1] == expire[1]
    ensures var reply := ReplyAfter(Perform(now, order, s, expire).store, es, later, order', ttl);
            var at := Asked(now, expire).value;
            && (at <= later ==> reply == ":-2\r\n")
            && (later < at && Ahead(Some(at), es) ==>
                  exists n :: reply == NumberReply(n) && Left(at - later, n, Called(ttl, TTL, 2)))
  {
    hide Perform, PossibleRun, Final, Called, Asked, Kept, OnlyAt, NumberReply, Left;
    ExpireReply(now, order, s, expire);
    var armed := Perform(now, order, s, expire).store;
    assert ":1\r\n" != ":0\r\n";
    AliveAfter(armed, es, expire[1], later);
    TtlReplies(later, order', Final(armed, es), ttl);
  }

  // ---- counting ------------------------------------------------------------

  /** A command of the INCR family on this key. */
  predicate Counts(e: Event, k: Bytes) {
    e.Exec? && Added(e.cmd).Some? && e.cmd[1] == k
  }

  /** The number after one event; an increment that would leave the int64 range changes nothing. */
  function Bumped(n: int, e: Event, k: Bytes): int {
    if Counts(e, k) && InI64(n + Added(e.cmd).value) then n + Added(e.cmd).value else n
  }

  /** The number after the increments of a run. */
  function Tally(n: int, es: seq<Event>, k: Bytes): int
    decreases |es|
  {
    if es == [] then n else Tally(Bumped(n, es[0], k), es[1..], k)
  }

  /** The cell stands for this number: it holds its decimal, or there is no key and it is 0. */
  predicate StandsFor(c: Cell, n: int) {
    if c.value.None? then c == GONE && n == 0
    else c.value.value.Str? && ParseI64(c.value.value.s) == Some(n)
  }

  predicate OnlyCounted(es: seq<Event>, k: Bytes) {
    forall i :: 0 <= i < |es| ==> Counts(es[i], k) || LeavesAlone(es[i], k)
  }

  lemma CountStep(s: Store, e: Event, k: Bytes, n: int)
    requires WellFormed(s) && Possible(s, e) && (Counts(e, k) || LeavesAlone(e, k))
    requires StandsFor(At(s, k), n) && InI64(n) && Ahead(At(s, k).deadline, [e])
    ensures StandsFor(At(Next(s, e), k), Bumped(n, e, k)) && InI64(Bumped(n, e, k))
    ensures At(Next(s, e), k).deadline == At(s, k).deadline
    ensures Counts(e, k) ==>
              var sum := n + Added(e.cmd).value;
              Perform(e.now, e.order, s, e.cmd).reply == if InI64(sum) then NumberReply(sum) else NUMBER_ERROR
  {
    hide Perform, ParseI64, ToString, Possible, LeavesAlone, Added;
    assert CellOk(At(s, k));
    assert Ahead(At(s, k).deadline, [e]) ==> !Lapsed(At(s, k), [e][0].now);
    if Counts(e, k) {
      IncrReply(e.now, e.order, s, e.cmd);
      PrintParse(n + Added(e.cmd).value);
    } else {
      LeftAlone(s, e, k);
    }
  }

  /**
   Increments add up: after any run in which a key is written by commands of the INCR family
   only, from anyone, it stands for the tally of what they added, and the next one is answered
   with that tally and its own.
   */
  lemma {:induction false} CountRun(s: Store, es: seq<Event>, k: Bytes, n: int)
    requires WellFormed(s) && PossibleRun(s, es) && OnlyCounted(es, k)
    requires StandsFor(At(s, k), n) && InI64(n) && Ahead(At(s, k).deadline, es)
    ensures var end := At(Final(s, es), k);
            StandsFor(end, Tally(n, es, k)) && InI64(Tally(n, es, k)) && end.deadline == At(s, k).deadline
    decreases |es|
  {
    hide Next, Possible, Fits, LeavesAlone, StandsFor, Counts, Bumped;
    if es != [] {
      NextWellFormed(s, es[0]);
      CountStep(s, es[0], k, n);
      CountRun(Next(s, es[0]), es[1..], k, Bumped(n, es[0], k));
    }
  }

  /** The reply to one more increment after such a run, and what GET would answer. */
  lemma CountReply(s: Store, es: seq<Event>, k: Bytes, n: int, e: Event)
    requires WellFormed(s) && PossibleRun(s, es) && OnlyCounted(es, k)
    requires StandsFor(At(s, k), n) && InI64(n)
    requires Ahead(At(s, k).deadline, es) && Ahead(At(s, k).deadline, [e])
    requires Possible(Final(s, es), e) && Counts(e, k)
    ensures var sum := Tally(n, es, k) + Added(e.cmd).value;
            ReplyAfter(s, es, e.now, e.order, e.cmd) == if InI64(sum) then NumberReply(sum) else NUMBER_ERROR
  {
    hide Perform, PossibleRun, Final, Possible, StandsFor, Tally, OnlyCounted, Ahead, Bumped, Added, ToString;
    CountRun(s, es, k, n);
    CountStep(Final(s, es), e, k, Tally(n, es, k));
  }

  // ---- queues --------------------------------------------------------------

  /** RPUSH on this key, or LPUSH if the queue runs the other way. */
  predicate Adds(e: Event, k: Bytes, mirrored: bool) {
    e.Exec? && |e.cmd| >= 3 && Called(e.cmd, if mirrored then LPUSH else RPUSH, |e.cmd|) && e.cmd[1] == k
  }

  /** LPOP on this key, or RPOP if the queue runs the other way. */
  predicate Draws(e: Event, k: Bytes, mirrored: bool) {
    e.Exec? && Called(e.cmd, if mirrored then RPOP else LPOP, 2) && e.cmd[1] == k
  }

  predicate OnlyQueued(es: seq<Event>, k: Bytes, mirrored: bool) {
    forall i :: 0 <= i < |es| ==>
      Adds(es[i], k, mirrored) || Draws(es[i], k, mirrored) || LeavesAlone(es[i], k)
  }

  /** Everything the run adds, in order. */
  function AddedBy(es: seq<Event>, k: Bytes, mirrored: bool): seq<Bytes> {
    if es == [] then []
    else (if Adds(es[0], k, mirrored) then es[0].cmd[2..] else []) + AddedBy(es[1..], k, mirrored)
  }

  /** The answers, other than the null bulk, to the commands that take, in order. */
  ghost function DrawnBy(s: Store, es: seq<Event>, k: Bytes, mirrored: bool): seq<Bytes>
    requires WellFormed(s) && PossibleRun(s, es)
    decreases |es|
  {
    if es == [] then []
    else
      var e := es[0];
      NextWellFormed(s, e);
      (if Draws(e, k, mirrored) && Perform(e.now, e.order, s, e.cmd).reply != NULL_REPLY
       then [Perform(e.now, e.order, s, e.cmd).reply] else []) + DrawnBy(Next(s, e), es[1..], k, mirrored)
  }

  /** A list or no key, read in the order in which it is taken. */
  function Queue(c: Cell, mirrored: bool): seq<Bytes> {
    if mirrored then Reverse(ItemsOf(c.value)) else ItemsOf(c.value)
  }

  function AllBulk(values: seq<Bytes>): (r: seq<Bytes>)
    ensures |r| == |values|
  {
    seq(|values|, i requires 0 <= i < |values| => BulkReply(values[i]))
  }

  lemma QueuePushed(before: seq<Bytes>, values: seq<Bytes>, mirrored: bool, after: seq<Bytes>)
    requires PushedOn(before, values, mirrored, after)
    ensures if mirrored then Reverse(after) == Reverse(before) + values else after == before + values
  {
    if mirrored {
      forall i | 0 <= i < |after|
        ensures Reverse(after)[i] == (Reverse(before) + values)[i]
      {
        ReversedAt(after, i);
        if i < |before| {
          ReversedAt(before, i);
          assert after[|values|..][|before| - 1 - i] == after[|after| - 1 - i];
        }
      }
    } else {
      assert after == after[..|before|] + after[|before|..];
    }
  }

  lemma QueuePopped(v: Bytes, rest: seq<Bytes>)
    ensures Reverse(rest + [v]) == [v] + Reverse(rest)
  {
    var all := rest + [v];
    forall i | 0 <= i < |all|
      ensures Reverse(all)[i] == ([v] + Reverse(rest))[i]
    {
      ReversedAt(all, i);
      if i > 0 {
        ReversedAt(rest, i - 1);
      }
    }
  }

  /** What one event does to the queue. */
  lemma QueueStep(s: Store, e: Event, k: Bytes, mirrored: bool)
    requires WellFormed(s) && Possible(s, e) && Ahead(At(s, k).deadline, [e]) && !HoldsString(At(s, k).value)
    requires Adds(e, k, mirrored) || Draws(e, k, mirrored) || LeavesAlone(e, k)
    ensures var c, c' := At(s, k), At(Next(s, e), k);
            var q, q' := Queue(c, mirrored), Queue(c', mirrored);
            && !HoldsString(c'.value) && (c'.deadline == c.deadline || c'.deadline == None)
            && (Adds(e, k, mirrored) ==> q' == q + e.cmd[2..])
            && (Draws(e, k, mirrored) ==>
                  var reply := Perform(e.now, e.order, s, e.cmd).reply;
                  if q == [] then reply == NULL_REPLY && q' == []
                  else reply == BulkReply(q[0]) != NULL_REPLY && q' == q[1..])
            && !(Adds(e, k, mirrored) && Draws(e, k, mirrored))
            && (!Adds(e, k, mirrored) && !Draws(e, k, mirrored) ==> q' == q)
  {
    hide Perform, Possible, LeavesAlone, Reverse, PushedOn, NameOf, Spelled;
    assert CellOk(At(s, k));
    assert !Lapsed(At(s, k), [e][0].now);
    if Adds(e, k, mirrored) {
      PushReply(e.now, e.order, s, e.cmd, mirrored);
      QueuePushed(ListAt(s, e.now, k), e.cmd[2..], mirrored, ItemsOf(At(Next(s, e), k).value));
    } else if Draws(e, k, mirrored) {
      PopReply(e.now, e.order, s, e.cmd, !mirrored);
      var items := ListAt(s, e.now, k);
      if items != [] {
        QueuePopped(Popped(items, !mirrored), ItemsOf(At(Next(s, e), k).value));
        BulkIsNotNull(Popped(items, !mirrored));
      }
    } else {
      LeftAlone(s, e, k);
    }
  }

  /** The answers are those to the first of all values, and the rest is still to come. */
  predicate Served(all: seq<Bytes>, answers: seq<Bytes>, waiting: seq<Bytes>) {
    |answers| <= |all| && answers == AllBulk(all[..|answers|]) && waiting == all[|answers|..]
  }

  lemma ServedNext(q: seq<Bytes>, added: seq<Bytes>, rest: seq<Bytes>, drawn: seq<Bytes>, answers: seq<Bytes>,
                   waiting: seq<Bytes>)
    requires drawn == [] || (q != [] && added == [] && drawn == [BulkReply(q[0])])
    requires Served((if drawn == [] then q + added else q[1..]) + rest, answers, waiting)
    ensures Served(q + (added + rest), drawn + answers, waiting)
  {
    hide BulkReply;
    var all, m := q + (added + rest), |answers|;
    if drawn == [] {
      AppendAssoc(q, added, rest);
      assert drawn + answers == answers;
    } else {
      var after := q[1..] + rest;
      assert added + rest == rest && all == [q[0]] + after;
      assert all[..m + 1] == [q[0]] + after[..m] && all[m + 1..] == after[m..];
    }
  }

  /**
   A list used as a queue. In any run in which a key is only pushed at one end and popped at the
   other, the answers to the pops are the values that were in the list or have been pushed, each
   once and in the order in which they came, and the list holds the ones still to come.
   */
  lemma {:induction false} QueueRun(s: Store, es: seq<Event>, k: Bytes, mirrored: bool)
    requires WellFormed(s) && PossibleRun(s, es) && OnlyQueued(es, k, mirrored)
    requires Ahead(At(s, k).deadline, es) && !HoldsString(At(s, k).value)
    ensures Served(Queue(At(s, k), mirrored) + AddedBy(es, k, mirrored), DrawnBy(s, es, k, mirrored),
                   Queue(At(Final(s, es), k), mirrored))
    decreases |es|
  {
    hide Next, Possible, Fits, LeavesAlone, Queue, Called, Draws, BulkReply, Perform, Served;
    var q := Queue(At(s, k), mirrored);
    if es == [] {
      ServedNone(q);
    } else {
      var e, rest := es[0], AddedBy(es[1..], k, mirrored);
      NextWellFormed(s, e);
      QueueStep(s, e, k, mirrored);
      var s', end := Next(s, e), Queue(At(Final(s, es), k), mirrored);
      QueueRun(s', es[1..], k, mirrored);
      var added := if Adds(e, k, mirrored) then e.cmd[2..] else [];
      var drawn := if Draws(e, k, mirrored) && q != [] then [BulkReply(q[0])] else [];
      assert q + [] == q;
      ServedNext(q, added, rest, drawn, DrawnBy(s', es[1..], k, mirrored), end);
    }
  }

  lemma ServedNone(q: seq<Bytes>)
    ensures Served(q + [], [], q)
  {
  }
}
