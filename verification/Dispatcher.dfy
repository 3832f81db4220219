/**
 The command dispatcher as an object: its handlers mutate the keyspace and the TTL
 table in place and append to the log, and each is proved against the command
 semantics and the server state machine.
 */
module Dispatcher {
  import opened Base
  import opened Decimal
  import opened RespWriter
  import opened Keyspace
  import opened Commands
  import opened Laws
  import opened Execution
  import opened Logging
  import opened Recovery
  import opened Wal
  import opened Server
  import opened EverySecond
  import opened LogFiles
  import Db
  import Expiry
  import Glob

  // ---- a handler's effect on the server ------------------------------------

  /** The server after a handler: its memory effect, and its evictions logged. */
  function Handled(sv: Server, out: Outcome, ios: seq<Io>): Server
    requires |ios| == |out.evicted|
  {
    PutRecords(sv.(store := out.store), DelRecords(out.evicted), ios)
  }

  /** Logging does not look at the keyspace. */
  lemma {:induction false} PutRecordsStore(sv: Server, recs: seq<Command>, ios: seq<Io>, s: Store)
    requires |ios| == |recs|
    ensures PutRecords(sv, recs, ios).(store := s) == PutRecords(sv.(store := s), recs, ios)
    decreases |recs|
  {
    if recs != [] {
      PutRecordsStore(PutRecord(sv, recs[0], ios[0]), recs[1..], ios[1..], s);
    }
  }

  lemma PutRecordsOne(sv: Server, rec: Command, io: Io)
    ensures PutRecords(sv, [rec], [io]) == PutRecord(sv, rec, io)
  {
  }

  /** Once failed, or without a log, nothing more is written. */
  lemma PutRecordsIdle(sv: Server, recs: seq<Command>, ios: seq<Io>)
    requires |ios| == |recs| && (sv.failed || !sv.logging)
    ensures PutRecords(sv, recs, ios) == sv
  {
    PutRecordsFrame(sv, recs, ios);
  }

  lemma DelRecordsOne(k: Bytes)
    ensures DelRecords([k]) == [DelRecord(k)]
  {
  }

  /** Evictions logged by successive parts of a loop add up. */
  lemma LogMore(sv: Server, a: Store, gone: seq<Bytes>, ios: seq<Io>, b: Store, more: seq<Bytes>, moreIos: seq<Io>)
    requires |ios| == |gone| && |moreIos| == |more|
    ensures PutRecords(PutRecords(sv.(store := a), DelRecords(gone), ios).(store := b), DelRecords(more), moreIos)
         == PutRecords(sv.(store := b), DelRecords(gone + more), ios + moreIos)
  {
    assert DelRecords(gone + more) == DelRecords(gone) + DelRecords(more);
    PutRecordsStore(sv.(store := a), DelRecords(gone), ios, b);
    PutRecordsAppend(sv.(store := b), DelRecords(gone), ios, DelRecords(more), moreIos);
  }

  /** The state of a multi-key loop: what it evicted so far has been logged. */
  ghost predicate LoopState(sv: Server, now: Server, gone: seq<Bytes>, ios: seq<Io>) {
    |ios| == |gone| && now == PutRecords(sv.(store := now.store), DelRecords(gone), ios)
  }

  lemma LoopStart(sv: Server)
    ensures LoopState(sv, sv, [], [])
  {
  }

  /** One pass through the gate, then a change of the store, keeps the loop state. */
  lemma LoopStep(sv: Server, before: Server, gone: seq<Bytes>, ios: seq<Io>,
                 s1: Store, more: seq<Bytes>, moreIos: seq<Io>, s2: Store)
    requires LoopState(sv, before, gone, ios) && |moreIos| == |more|
    ensures var touched := PutRecords(before.(store := s1), DelRecords(more), moreIos);
            && touched.store == s1
            && LoopState(sv, touched, gone + more, ios + moreIos)
            && LoopState(sv, touched.(store := s2), gone + more, ios + moreIos)
  {
    LogMore(sv, before.store, gone, ios, s1, more, moreIos);
    var touched := PutRecords(before.(store := s1), DelRecords(more), moreIos);
    PutRecordsFrame(before.(store := s1), DelRecords(more), moreIos);
    PutRecordsStore(sv.(store := s1), DelRecords(gone + more), ios + moreIos, s2);
  }

  lemma TouchedCell(s: Store, now: int, k: Bytes)
    requires WellFormed(s)
    ensures CellOk(At(s, k)) && At(Touch(s, now, k), k) == Found(s, now, k) && WellFormed(Touch(s, now, k))
    ensures forall c :: Put(Touch(s, now, k), k, c) == Put(s, k, c)
  {
    assert CellOk(At(s, k));
    AtPut(s, k, Found(s, now, k), k);
    WellFormedPut(s, k, Found(s, now, k));
    forall c
      ensures Put(Touch(s, now, k), k, c) == Put(s, k, c)
    {
      PutPut(s, k, Found(s, now, k), c);
    }
  }

  // ---- the object ----------------------------------------------------------

  class CommandDispatcher {
    const db: Db.Db
    const expiry: Expiry.ExpiryManager
    const wal: Wal
    var logging: bool
    var failed: bool
    var shutdown: bool

    ghost predicate Valid()
      reads this, expiry
    {
      expiry.Valid()
    }

    ghost function Current(): Store
      requires Valid()
      reads this, db, expiry
    {
      Store(db.entries, expiry.Table())
    }

    ghost function View(): Server
      requires Valid()
      reads this, db, expiry, wal, wal.log
    {
      Server(Current(), wal.State(), logging, failed, shutdown)
    }

    constructor (db: Db.Db, expiry: Expiry.ExpiryManager, wal: Wal)
      requires expiry.Valid()
      ensures this.db == db && this.expiry == expiry && this.wal == wal
      ensures Valid() && View() == Server(Store(db.entries, expiry.Table()), wal.State(), false, false, false)
    {
      this.db, this.expiry, this.wal := db, expiry, wal;
      logging, failed, shutdown := false, false, false;
    }

    method ReportPersistenceFailure()
      modifies this
      ensures failed && shutdown && logging == old(logging)
    {
      failed, shutdown := true, true;
    }

    /** Appends one record unless there is no log or it has already failed. */
    method PutOne(rec: Command) returns (ghost io: Io)
      requires Valid()
      modifies this, wal, wal.log
      ensures Valid() && View() == PutRecord(old(View()), rec, io)
    {
      io := Torn(0);
      if logging && !failed {
        var st;
        st, io := wal.AppendRecord(rec);
        if st != KOk {
          ReportPersistenceFailure();
        }
      }
    }

    /** The hook every eviction goes through: delete from the keyspace, log the deletion. */
    method EvictHook(key: Bytes) returns (ghost io: Io)
      requires Valid()
      modifies this, db, wal, wal.log
      ensures Valid()
      ensures var sv := old(View());
              View() == PutRecord(sv.(store := Store(sv.store.db - {key}, sv.store.ttl)), DelRecord(key), io)
    {
      var _ := db.Del(key);
      io := PutOne(DelRecord(key));
    }

    /** The lazy-expiry gate in front of every key access. */
    method TouchKey(key: Bytes, now: int) returns (expired: bool, ghost ios: seq<Io>)
      requires Valid()
      modifies this, db, expiry, wal, wal.log
      ensures Valid() && |ios| == |EvictedAt(old(Current()), now, key)|
      ensures expired == Lapsed(At(old(Current()), key), now)
      ensures View() == PutRecords(old(View()).(store := Touch(old(Current()), now, key)),
                                   DelRecords(EvictedAt(old(Current()), now, key)), ios)
    {
      ghost var sv, s := View(), Current();
      ios := [];
      expired := expiry.CheckAndExpire(key, now);
      TouchMaps(s, now, key);
      if expired {
        assert Current() == Store(s.db, s.ttl - {key});
        ghost var io := EvictHook(key);
        ios := [io];
        DelRecordsOne(key);
        PutRecordsOne(sv.(store := Touch(s, now, key)), DelRecord(key), io);
      }
    }

    /** The gate where only its effect matters. */
    method Gate(key: Bytes, now: int) returns (ghost ios: seq<Io>)
      requires Valid() && WellFormed(Current())
      modifies this, db, expiry, wal, wal.log
      ensures Valid() && |ios| == |EvictedAt(old(Current()), now, key)|
      ensures View() == PutRecords(old(View()).(store := Touch(old(Current()), now, key)),
                                   DelRecords(EvictedAt(old(Current()), now, key)), ios)
      ensures Current() == Touch(old(Current()), now, key)
      ensures At(Current(), key) == Found(old(Current()), now, key) && CellOk(At(Current(), key))
    {
      ghost var sv := View();
      TouchedCell(sv.store, now, key);
      var expired, io := TouchKey(key, now);
      ios := io;
      PutRecordsFrame(sv.(store := Touch(sv.store, now, key)), DelRecords(EvictedAt(sv.store, now, key)), ios);
    }

    static lemma TouchMaps(s: Store, now: int, key: Bytes)
      ensures Lapsed(At(s, key), now) ==> Touch(s, now, key) == Store(s.db - {key}, s.ttl - {key})
      ensures !Lapsed(At(s, key), now) ==> Touch(s, now, key) == s
    {
    }

    /** What a one-key handler must leave behind. */
    ghost predicate Served(sv: Server, now: int, key: Bytes, op: KeyOp, reply: Bytes, ios: seq<Io>)
      requires Valid() && WellFormed(sv.store)
      reads this, db, expiry, wal, wal.log
    {
      assert CellOk(At(sv.store, key));
      var out := ApplyKeyed(now, sv.store, key, op);
      |ios| == |out.evicted| && reply == out.reply && View() == Handled(sv, out, ios)
    }

    /** A handler that, after the gate, left the cell of its key as its semantics says. */
    lemma ServedBy(sv: Server, mid: Server, now: int, key: Bytes, op: KeyOp, reply: Bytes, ios: seq<Io>)
      requires Valid() && WellFormed(sv.store) && |ios| == |EvictedAt(sv.store, now, key)|
      requires mid == PutRecords(sv.(store := Touch(sv.store, now, key)),
                                 DelRecords(EvictedAt(sv.store, now, key)), ios)
      requires CellOk(Found(sv.store, now, key))
      requires var (c, r) := CellStep(now, Found(sv.store, now, key), op);
               reply == r && Current() == Put(Touch(sv.store, now, key), key, c)
      requires View() == mid.(store := Current())
      ensures Served(sv, now, key, op, reply, ios)
    {
      hide CellStep;
      assert CellOk(At(sv.store, key));
      TouchedCell(sv.store, now, key);
      var s1, dels := Touch(sv.store, now, key), DelRecords(EvictedAt(sv.store, now, key));
      PutRecordsStore(sv.(store := s1), dels, ios, Current());
    }

    /** A handler that only reads, after the gate. */
    lemma ServedRead(sv: Server, now: int, key: Bytes, op: KeyOp, reply: Bytes, ios: seq<Io>)
      requires Valid() && WellFormed(sv.store) && |ios| == |EvictedAt(sv.store, now, key)|
      requires View() == PutRecords(sv.(store := Touch(sv.store, now, key)),
                                    DelRecords(EvictedAt(sv.store, now, key)), ios)
      requires CellOk(Found(sv.store, now, key))
      requires CellStep(now, Found(sv.store, now, key), op) == (Found(sv.store, now, key), reply)
      ensures Served(sv, now, key, op, reply, ios)
    {
      hide CellStep;
      PutRecordsFrame(sv.(store := Touch(sv.store, now, key)), DelRecords(EvictedAt(sv.store, now, key)), ios);
      TouchedCell(sv.store, now, key);
      PutSame(Current(), key);
      ServedBy(sv, View(), now, key, op, reply, ios);
    }

    // ---- strings -----------------------------------------------------------

    method DoGet(key: Bytes, now: int) returns (reply: Bytes, ghost ios: seq<Io>)
      requires Valid() && WellFormed(Current())
      modifies this, db, expiry, wal, wal.log
      ensures Valid() && Served(old(View()), now, key, Get, reply, ios)
    {
      hide Served, WellFormed, PutRecords, Bulk, Touch, DelRecords, EvictedAt;
      ghost var sv := View();
      ios := Gate(key, now);
      if db.KindOf(key).KList? {
        reply := WRONGTYPE;
      } else {
        var v := db.Get(key);
        reply := if v.Some? then Bulk(v.value) else NULL_BULK;
      }
      ServedRead(sv, now, key, Get, reply, ios);
    }

    /** The option loop of SET. */
    static method ScanOptions(cmd: Command) returns (r: SetOptions)
      requires |cmd| >= 3
      ensures r == ScanSetOptions(cmd, 3, false, false, None)
    {
      hide Upper, ParseI64;
      var nx, xx := false, false;
      var expireMs: Option<int> := None;
      var i := 3;
      while i < |cmd|
        invariant 3 <= i <= |cmd|
        invariant ScanSetOptions(cmd, 3, false, false, None) == ScanSetOptions(cmd, i, nx, xx, expireMs)
      {
        var opt := Upper(cmd[i]);
        if opt == "NX" && !xx {
          nx := true;
        } else if opt == "XX" && !nx {
          xx := true;
        } else if (opt == "EX" || opt == "PX") && expireMs.None? && i + 1 < |cmd| {
          var n := ParseI64(cmd[i + 1]);
          if n.None? {
            return Rejected(NOT_AN_INTEGER);
          }
          if n.value <= 0 {
            return Rejected(INVALID_EXPIRE);
          }
          expireMs := Some(if opt == "EX" then n.value * 1000 else n.value);
          i := i + 1;
        } else {
          return Rejected(SYNTAX_ERROR);
        }
        i := i + 1;
      }
      r := Options(nx, xx, expireMs);
    }

    method DoSet(key: Bytes, value: Bytes, nx: bool, xx: bool, expireMs: Option<int>, now: int)
      returns (reply: Bytes, ghost ios: seq<Io>)
      requires Valid() && WellFormed(Current())
      modifies this, db, expiry, wal, wal.log
      ensures Valid() && Served(old(View()), now, key, Set(value, nx, xx, expireMs), reply, ios)
    {
      hide Served, WellFormed, PutRecords, Touch, DelRecords, EvictedAt, CellStep;
      ghost var sv := View();
      ghost var op := Set(value, nx, xx, expireMs);
      ios := Gate(key, now);
      ghost var mid := View();
      SetMeans(now, Current(), key, op);
      var exists_ := db.Exists(key);
      if (nx && exists_) || (xx && !exists_) {
        reply := NULL_BULK;
        ServedRead(sv, now, key, op, reply, ios);
        return;
      }
      db.Set(key, value);
      if expireMs.Some? {
        expiry.SetExpiry(key, now + expireMs.value);
      } else {
        expiry.Persist(key);
      }
      reply := OK;
      ServedBy(sv, mid, now, key, op, reply, ios);
    }

    static lemma SetMeans(now: int, s: Store, key: Bytes, op: KeyOp)
      requires CellOk(At(s, key)) && op.Set?
      ensures var (c, reply) := CellStep(now, At(s, key), op);
              if (op.nx && key in s.db) || (op.xx && key !in s.db) then c == At(s, key) && reply == NULL_BULK
              else
                && reply == OK
                && var at := if op.expireMs.Some? then Some(now + op.expireMs.value) else None;
                Put(s, key, c) == Store(s.db[key := Str(op.value)], Replace(s.ttl, key, at))
    {
    }

    method DoIncrBy(key: Bytes, delta: int, now: int) returns (reply: Bytes, ghost ios: seq<Io>)
      requires Valid() && WellFormed(Current())
      modifies this, db, expiry, wal, wal.log
      ensures Valid() && Served(old(View()), now, key, IncrBy(delta), reply, ios)
    {
      hide Served, WellFormed, PutRecords, Touch, DelRecords, EvictedAt, ParseI64, ToString, InI64, Integer;
      ghost var sv := View();
      ghost var op := IncrBy(delta);
      ios := Gate(key, now);
      ghost var mid := View();
      if db.KindOf(key).KList? {
        reply := WRONGTYPE;
        ServedRead(sv, now, key, op, reply, ios);
        return;
      }
      var cur := 0;
      var v := db.Get(key);
      if v.Some? {
        var parsed := ParseI64(v.value);
        if parsed.None? {
          reply := NOT_AN_INTEGER;
          ServedRead(sv, now, key, op, reply, ios);
          return;
        }
        cur := parsed.value;
      }
      var next := cur + delta;
      if !InI64(next) {
        reply := NOT_AN_INTEGER;
        ServedRead(sv, now, key, op, reply, ios);
        return;
      }
      db.Set(key, ToString(next));
      reply := Integer(next);
      KeepsDeadline(Touch(sv.store, now, key), key, Str(ToString(next)));
      ServedBy(sv, mid, now, key, op, reply, ios);
    }

    /** Writing the value alone keeps the deadline. */
    static lemma KeepsDeadline(s: Store, key: Bytes, v: Value)
      ensures Store(s.db[key := v], s.ttl) == Put(s, key, Cell(Some(v), At(s, key).deadline))
    {
    }

    method DoType(key: Bytes, now: int) returns (reply: Bytes, ghost ios: seq<Io>)
      requires Valid() && WellFormed(Current())
      modifies this, db, expiry, wal, wal.log
      ensures Valid() && Served(old(View()), now, key, Type, reply, ios)
    {
      hide Served, WellFormed, PutRecords, Touch, DelRecords, EvictedAt;
      ghost var sv := View();
      ios := Gate(key, now);
      match db.KindOf(key) {
        case KNone => reply := Simple("none");
        case KString => reply := Simple("string");
        case KList => reply := Simple("list");
      }
      ServedRead(sv, now, key, Type, reply, ios);
    }

    // ---- TTL family --------------------------------------------------------

    /** Deletes a key together with its TTL. */
    method Erase(key: Bytes)
      requires Valid()
      modifies db, expiry
      ensures Valid() && Current() == Put(old(Current()), key, GONE)
    {
      var _ := db.Del(key);
      expiry.Persist(key);
    }

    /** Arms a TTL on a key whose value stays. */
    method Arm(key: Bytes, atMs: int)
      requires Valid()
      modifies expiry
      ensures Valid() && Current() == Put(old(Current()), key, Cell(At(old(Current()), key).value, Some(atMs)))
    {
      expiry.SetExpiry(key, atMs);
      assert db.entries - {key} == db.entries || key in db.entries;
    }

    static lemma ExpireMeans(now: int, c: Cell, op: KeyOp)
      requires CellOk(c) && (op.Expire? || op.ExpireAt?)
      ensures c.value.None? ==> CellStep(now, c, op) == (c, Integer(0))
      ensures c.value.Some? && op.Expire? ==>
                var armed := Cell(c.value, Some(now + op.n * op.unit));
                CellStep(now, c, op) == (if op.n <= 0 then GONE else armed, Integer(1))
      ensures c.value.Some? && op.ExpireAt? ==>
                CellStep(now, c, op) == (if op.atMs <= now then GONE else Cell(c.value, Some(op.atMs)), Integer(1))
    {
    }

    method DoExpire(key: Bytes, n: int, unit: int, now: int) returns (reply: Bytes, ghost ios: seq<Io>)
      requires Valid() && WellFormed(Current())
      modifies this, db, expiry, wal, wal.log
      ensures Valid() && Served(old(View()), now, key, Expire(n, unit), reply, ios)
    {
      hide Served, WellFormed, PutRecords, Touch, DelRecords, EvictedAt, Integer, Put, CellStep;
      ghost var sv := View();
      ghost var op := Expire(n, unit);
      ios := Gate(key, now);
      ghost var mid := View();
      ExpireMeans(now, At(Current(), key), op);
      if !db.Exists(key) {
        reply := Integer(0);
        ServedRead(sv, now, key, op, reply, ios);
        return;
      }
      if n <= 0 {
        Erase(key);
      } else {
        Arm(key, now + n * unit);
      }
      reply := Integer(1);
      ServedBy(sv, mid, now, key, op, reply, ios);
    }

    method DoExpireAt(key: Bytes, atMs: int, now: int) returns (reply: Bytes, ghost ios: seq<Io>)
      requires Valid() && WellFormed(Current())
      modifies this, db, expiry, wal, wal.log
      ensures Valid() && Served(old(View()), now, key, ExpireAt(atMs), reply, ios)
    {
      hide Served, WellFormed, PutRecords, Touch, DelRecords, EvictedAt, Integer, Put, CellStep;
      ghost var sv := View();
      ghost var op := ExpireAt(atMs);
      ios := Gate(key, now);
      ghost var mid := View();
      ExpireMeans(now, At(Current(), key), op);
      if !db.Exists(key) {
        reply := Integer(0);
        ServedRead(sv, now, key, op, reply, ios);
        return;
      }
      if atMs <= now {
        Erase(key);
      } else {
        Arm(key, atMs);
      }
      reply := Integer(1);
      ServedBy(sv, mid, now, key, op, reply, ios);
    }

    method DoTtl(key: Bytes, inSeconds: bool, now: int) returns (reply: Bytes, ghost ios: seq<Io>)
      requires Valid() && WellFormed(Current())
      modifies this, db, expiry, wal, wal.log
      ensures Valid() && Served(old(View()), now, key, Ttl(inSeconds), reply, ios)
    {
      hide Served, WellFormed, PutRecords, Touch, DelRecords, EvictedAt, Integer;
      ghost var sv := View();
      ios := Gate(key, now);
      if !db.Exists(key) {
        reply := Integer(-2);
      } else {
        var at := expiry.ExpiryAt(key);
        if at.None? {
          reply := Integer(-1);
        } else {
          var remaining := at.value - now;
          if remaining < 0 {
            remaining := 0;
          }
          reply := Integer(if inSeconds then (remaining + 500) / 1000 else remaining);
        }
      }
      ServedRead(sv, now, key, Ttl(inSeconds), reply, ios);
    }

    method DoPersist(key: Bytes, now: int) returns (reply: Bytes, ghost ios: seq<Io>)
      requires Valid() && WellFormed(Current())
      modifies this, db, expiry, wal, wal.log
      ensures Valid() && Served(old(View()), now, key, Persist, reply, ios)
    {
      hide Served, WellFormed, PutRecords, Touch, DelRecords, EvictedAt, Integer;
      ghost var sv := View();
      ios := Gate(key, now);
      ghost var mid := View();
      if !db.Exists(key) || expiry.ExpiryAt(key).None? {
        reply := Integer(0);
        ServedRead(sv, now, key, Persist, reply, ios);
        return;
      }
      expiry.Persist(key);
      reply := Integer(1);
      ServedBy(sv, mid, now, key, Persist, reply, ios);
    }

    // ---- lists -------------------------------------------------------------

    static lemma PushedNext(items: seq<Bytes>, values: seq<Bytes>, i: nat, left: bool)
      requires i < |values|
      ensures var before, v := Pushed(items, values[..i], left), values[i];
              Pushed(items, values[..i + 1], left) == if left then [v] + before else before + [v]
    {
      assert values[..i + 1] == values[..i] + [values[i]];
      if left {
        ReverseSnoc(values[..i], values[i]);
        AppendAssoc([values[i]], Reverse(values[..i]), items);
      }
    }

    static lemma {:induction false} ReverseSnoc(s: seq<Bytes>, x: Bytes)
      ensures Reverse(s + [x]) == [x] + Reverse(s)
    {
      if s == [] {
        assert [] + [x] == [x];
        assert Reverse([x]) == Reverse([x][1..]) + [x];
      } else {
        assert (s + [x])[1..] == s[1..] + [x];
        ReverseSnoc(s[1..], x);
        AppendAssoc([x], Reverse(s[1..]), [s[0]]);
      }
    }

    method DoPush(key: Bytes, values: seq<Bytes>, left: bool, now: int) returns (reply: Bytes, ghost ios: seq<Io>)
      requires values != []
      requires Valid() && WellFormed(Current())
      modifies this, db, expiry, wal, wal.log
      ensures Valid() && Served(old(View()), now, key, Push(values, left), reply, ios)
    {
      hide Served, WellFormed, PutRecords, Touch, DelRecords, EvictedAt, Integer, Pushed;
      ghost var sv := View();
      ghost var op := Push(values, left);
      ios := Gate(key, now);
      ghost var mid := View();
      if db.KindOf(key).KString? {
        reply := WRONGTYPE;
        ServedRead(sv, now, key, op, reply, ios);
        return;
      }
      ghost var was := Lookup(db.entries, key);
      var len := PushValues(key, values, left);
      reply := Integer(len);
      KeepsDeadline(Touch(sv.store, now, key), key, List(Pushed(ItemsOf(was), values, left)));
      ServedBy(sv, mid, now, key, op, reply, ios);
    }

    /** The push loop: one value at a time. */
    method PushValues(key: Bytes, values: seq<Bytes>, left: bool) returns (len: nat)
      requires values != [] && !HoldsString(Lookup(db.entries, key))
      modifies db
      ensures var items := Pushed(ItemsOf(Lookup(old(db.entries), key)), values, left);
              items != [] && len == |items| && db.entries == old(db.entries)[key := List(items)]
    {
      hide Pushed;
      ghost var items := ItemsOf(Lookup(db.entries, key));
      len := db.PushOne(key, values[0], left);
      var i := 1;
      PushedFirst(items, values, left);
      while i < |values|
        invariant 1 <= i <= |values|
        invariant db.entries == old(db.entries)[key := List(Pushed(items, values[..i], left))]
        invariant len == |Pushed(items, values[..i], left)| > 0
      {
        PushedNext(items, values, i, left);
        len := db.PushOne(key, values[i], left);
        i := i + 1;
      }
      assert values[..i] == values;
    }

    static lemma PushedFirst(items: seq<Bytes>, values: seq<Bytes>, left: bool)
      requires values != []
      ensures Pushed(items, values[..1], left) == if left then [values[0]] + items else items + [values[0]]
    {
    }

    method DoPop(key: Bytes, left: bool, now: int) returns (reply: Bytes, ghost ios: seq<Io>)
      requires Valid() && WellFormed(Current())
      modifies this, db, expiry, wal, wal.log
      ensures Valid() && Served(old(View()), now, key, Pop(left), reply, ios)
    {
      hide Served, WellFormed, PutRecords, Touch, DelRecords, EvictedAt, Bulk, CellStep, Put;
      ghost var sv := View();
      ghost var op := Pop(left);
      ios := Gate(key, now);
      ghost var mid, s1 := View(), Current();
      PopReplies(now, s1, key, left);
      if db.KindOf(key).KString? {
        reply := WRONGTYPE;
        ServedRead(sv, now, key, op, reply, ios);
        return;
      }
      var v := PopAndDisarm(key, left, now);
      if v.None? {
        reply := NULL_BULK;
        ServedRead(sv, now, key, op, reply, ios);
        return;
      }
      reply := Bulk(v.value);
      ServedBy(sv, mid, now, key, op, reply, ios);
    }

    /** Pops a value; the TTL goes with the key when the last value does. */
    method PopAndDisarm(key: Bytes, left: bool, ghost now: int) returns (v: Option<Bytes>)
      requires Valid() && CellOk(At(Current(), key)) && !HoldsString(At(Current(), key).value)
      modifies db, expiry
      ensures Valid()
      ensures v.None? ==> At(old(Current()), key).value.None? && Current() == old(Current())
      ensures v.Some? ==>
                && HoldsList(At(old(Current()), key).value)
                && var items := At(old(Current()), key).value.value.items;
                && v.value == (if left then items[0] else items[|items| - 1])
                && Current() == Put(old(Current()), key, CellStep(now, At(old(Current()), key), Pop(left)).0)
    {
      hide CellStep;
      ghost var s := Current();
      v := db.PopOne(key, left);
      if v.Some? {
        if !db.Exists(key) {
          expiry.Persist(key);
        }
        PoppedCell(now, s, key, left, Current());
      }
    }

    static lemma PopReplies(now: int, s: Store, key: Bytes, left: bool)
      requires CellOk(At(s, key))
      ensures var c := At(s, key);
              && (HoldsString(c.value) ==> CellStep(now, c, Pop(left)) == (c, WRONGTYPE))
              && (c.value.None? ==> CellStep(now, c, Pop(left)) == (c, NULL_BULK))
              && (HoldsList(c.value) ==>
                    var items := c.value.value.items;
                    CellStep(now, c, Pop(left)).1 == Bulk(if left then items[0] else items[|items| - 1]))
    {
    }

    static lemma PoppedCell(now: int, s: Store, key: Bytes, left: bool, t: Store)
      requires CellOk(At(s, key)) && HoldsList(At(s, key).value)
      requires t.db - {key} == s.db - {key}
      requires var items := s.db[key].items;
               Lookup(t.db, key) == if |items| == 1 then None
                                    else Some(List(if left then items[1..] else items[..|items| - 1]))
      requires t.ttl == if key in t.db then s.ttl else s.ttl - {key}
      ensures t == Put(s, key, CellStep(now, At(s, key), Pop(left)).0)
    {
      var c := CellStep(now, At(s, key), Pop(left)).0;
      assert c == Cell(Lookup(t.db, key), Lookup(t.ttl, key));
      forall j
        ensures At(t, j) == At(Put(s, key, c), j)
      {
        AtPut(s, key, c, j);
        assert j != key ==> (j in t.db <==> j in t.db - {key}) && (j in s.db <==> j in s.db - {key});
        assert j != key && j in t.db ==> t.db[j] == (t.db - {key})[j] && s.db[j] == (s.db - {key})[j];
      }
      SameCells(t, Put(s, key, c));
    }

    method DoLen(key: Bytes, now: int) returns (reply: Bytes, ghost ios: seq<Io>)
      requires Valid() && WellFormed(Current())
      modifies this, db, expiry, wal, wal.log
      ensures Valid() && Served(old(View()), now, key, Len, reply, ios)
    {
      hide Served, WellFormed, PutRecords, Touch, DelRecords, EvictedAt, Integer;
      ghost var sv := View();
      ios := Gate(key, now);
      if db.KindOf(key).KString? {
        reply := WRONGTYPE;
      } else {
        reply := Integer(db.Llen(key));
      }
      ServedRead(sv, now, key, Len, reply, ios);
    }

    method DoRange(key: Bytes, start: int, stop: int, now: int) returns (reply: Bytes, ghost ios: seq<Io>)
      requires Valid() && WellFormed(Current())
      modifies this, db, expiry, wal, wal.log
      ensures Valid() && Served(old(View()), now, key, Range(start, stop), reply, ios)
    {
      hide Served, WellFormed, PutRecords, Touch, DelRecords, EvictedAt, Slice, Bulks, Array;
      ghost var sv := View();
      ios := Gate(key, now);
      if db.KindOf(key).KString? {
        reply := WRONGTYPE;
      } else {
        var items := db.Lrange(key, start, stop);
        reply := Array(Bulks(items));
      }
      ServedRead(sv, now, key, Range(start, stop), reply, ios);
    }

    // ---- several keys ------------------------------------------------------

    /** What a handler that is not about one key must leave behind. */
    ghost predicate Answered(sv: Server, out: Outcome, reply: Bytes, ios: seq<Io>)
      requires Valid()
      reads this, db, expiry, wal, wal.log
    {
      |ios| == |out.evicted| && reply == out.reply && View() == Handled(sv, out, ios)
    }

    /** One key of DEL: through the gate, then deleted together with its TTL. */
    method DelOne(key: Bytes, now: int) returns (had: bool, ghost ios: seq<Io>)
      requires Valid()
      modifies this, db, expiry, wal, wal.log
      ensures Valid() && |ios| == |EvictedAt(old(Current()), now, key)|
      ensures had == Lapse(At(old(Current()), key), now).value.Some?
      ensures Current() == if had then Put(old(Current()), key, GONE) else Touch(old(Current()), now, key)
      ensures View() == PutRecords(old(View()).(store := Touch(old(Current()), now, key)),
                                   DelRecords(EvictedAt(old(Current()), now, key)), ios).(store := Current())
    {
      hide PutRecords, DelRecords, EvictedAt, Touch;
      ghost var sv, cur := View(), Current();
      var expired, io := TouchKey(key, now);
      ios := io;
      PutRecordsFrame(sv.(store := Touch(cur, now, key)), DelRecords(EvictedAt(cur, now, key)), ios);
      had := db.Del(key);
      if had {
        expiry.Persist(key);
      }
      DelStep(cur, now, key, had, Current());
    }

    /** One key of EXISTS or KEYS: through the gate only. */
    method LookOne(key: Bytes, now: int) returns (expired: bool, there: bool, ghost ios: seq<Io>)
      requires Valid()
      modifies this, db, expiry, wal, wal.log
      ensures Valid() && |ios| == |EvictedAt(old(Current()), now, key)|
      ensures expired == Lapsed(At(old(Current()), key), now)
      ensures there == Lapse(At(old(Current()), key), now).value.Some?
      ensures Current() == Touch(old(Current()), now, key)
      ensures View() == PutRecords(old(View()).(store := Touch(old(Current()), now, key)),
                                   DelRecords(EvictedAt(old(Current()), now, key)), ios).(store := Current())
    {
      hide PutRecords, DelRecords, EvictedAt, Touch;
      ghost var sv, cur := View(), Current();
      var gone, io := TouchKey(key, now);
      expired, ios := gone, io;
      PutRecordsFrame(sv.(store := Touch(cur, now, key)), DelRecords(EvictedAt(cur, now, key)), ios);
      TouchAt(cur, now, key);
      there := db.Exists(key);
    }

    method DoDel(keys: seq<Bytes>, now: int, ghost order: seq<Bytes>) returns (reply: Bytes, ghost ios: seq<Io>)
      requires Valid()
      modifies this, db, expiry, wal, wal.log
      ensures Valid() && Answered(old(View()), Apply(now, order, old(Current()), Del(keys)), reply, ios)
    {
      hide PutRecords, Touch, DelRecords, EvictedAt, Integer, LoopState, DelLoop, DelProgress;
      ghost var sv := View();
      ghost var goal := DelLoop(now, sv.store, keys);
      ghost var gone: seq<Bytes> := [];
      ios := [];
      LoopStart(sv);
      DelProgressStart(now, sv.store, keys);
      var n := 0;
      var i := 0;
      while i < |keys|
        invariant 0 <= i <= |keys| && Valid()
        invariant LoopState(sv, View(), gone, ios)
        invariant DelProgress(goal, now, Current(), keys, i, n, gone)
      {
        ghost var before, cur := View(), Current();
        var key := keys[i];
        var had, io := DelOne(key, now);
        LoopStep(sv, before, gone, ios, Touch(cur, now, key), EvictedAt(cur, now, key), io, Current());
        DelProgressStep(goal, now, cur, keys, i, n, gone);
        if had {
          n := n + 1;
        }
        gone, ios := gone + EvictedAt(cur, now, key), ios + io;
        i := i + 1;
      }
      reply := Integer(n);
      DelProgressEnd(goal, now, Current(), keys, n, gone);
      LoopDone(sv, View(), gone, ios);
    }

    static lemma TouchAt(s: Store, now: int, key: Bytes)
      ensures At(Touch(s, now, key), key) == Lapse(At(s, key), now)
    {
    }

    static lemma DelStep(s: Store, now: int, key: Bytes, had: bool, t: Store)
      requires had == (key in Touch(s, now, key).db)
      requires var touched := Touch(s, now, key);
               t == Store(touched.db - {key}, if had then touched.ttl - {key} else touched.ttl)
      ensures had == Lapse(At(s, key), now).value.Some?
      ensures t == if had then Put(s, key, GONE) else Touch(s, now, key)
    {
    }

    static lemma LoopDone(sv: Server, v: Server, gone: seq<Bytes>, ios: seq<Io>)
      requires LoopState(sv, v, gone, ios)
      ensures |ios| == |gone| && v == PutRecords(sv.(store := v.store), DelRecords(gone), ios)
    {
    }

    method DoExists(keys: seq<Bytes>, now: int, ghost order: seq<Bytes>) returns (reply: Bytes, ghost ios: seq<Io>)
      requires Valid()
      modifies this, db, expiry, wal, wal.log
      ensures Valid() && Answered(old(View()), Apply(now, order, old(Current()), Exists(keys)), reply, ios)
    {
      hide PutRecords, Touch, DelRecords, EvictedAt, Integer, LoopState, ExistsLoop, ExistsProgress;
      ghost var sv := View();
      ghost var goal := ExistsLoop(now, sv.store, keys);
      ghost var gone: seq<Bytes> := [];
      ios := [];
      LoopStart(sv);
      ExistsProgressStart(now, sv.store, keys);
      var n := 0;
      var i := 0;
      while i < |keys|
        invariant 0 <= i <= |keys| && Valid()
        invariant LoopState(sv, View(), gone, ios)
        invariant ExistsProgress(goal, now, Current(), keys, i, n, gone)
      {
        ghost var before, cur := View(), Current();
        var key := keys[i];
        var expired, there, io := LookOne(key, now);
        LoopStep(sv, before, gone, ios, Touch(cur, now, key), EvictedAt(cur, now, key), io, Current());
        ExistsProgressStep(goal, now, cur, keys, i, n, gone);
        if there {
          n := n + 1;
        }
        gone, ios := gone + EvictedAt(cur, now, key), ios + io;
        i := i + 1;
      }
      reply := Integer(n);
      ExistsProgressEnd(goal, now, Current(), keys, n, gone);
      LoopDone(sv, View(), gone, ios);
    }

    method DoKeys(pattern: Bytes, now: int, order: seq<Bytes>) returns (reply: Bytes, ghost ios: seq<Io>)
      requires Valid() && Enumerates(order, db.entries.Keys)
      modifies this, db, expiry, wal, wal.log
      ensures Valid() && Answered(old(View()), Apply(now, order, old(Current()), Keys(pattern)), reply, ios)
    {
      hide PutRecords, Touch, DelRecords, EvictedAt, Array, LoopState, Filter, Bulks, KeysLoop, KeysProgress;
      ghost var sv := View();
      var keys := db.KeysMatchingGlob(pattern, order);
      ghost var goal := KeysLoop(now, sv.store, keys);
      ghost var gone: seq<Bytes> := [];
      ios := [];
      LoopStart(sv);
      KeysProgressStart(now, sv.store, keys);
      var live: seq<Bytes> := [];
      var i := 0;
      while i < |keys|
        invariant 0 <= i <= |keys| && Valid()
        invariant LoopState(sv, View(), gone, ios)
        invariant KeysProgress(goal, now, Current(), keys, i, live, gone)
      {
        ghost var before, cur := View(), Current();
        var key := keys[i];
        var expired, there, io := LookOne(key, now);
        LoopStep(sv, before, gone, ios, Touch(cur, now, key), EvictedAt(cur, now, key), io, Current());
        KeysProgressStep(goal, now, cur, keys, i, live, gone);
        gone, ios := gone + EvictedAt(cur, now, key), ios + io;
        i := i + 1;
        if expired {
          continue;
        }
        live := live + [key];
      }
      reply := Array(Bulks(live));
      KeysProgressEnd(goal, now, Current(), keys, live, gone);
      LoopDone(sv, View(), gone, ios);
    }

    method DoFlushAll(now: int, order: seq<Bytes>) returns (reply: Bytes, ghost ios: seq<Io>)
      requires Valid() && Enumerates(order, db.entries.Keys)
      modifies this, db, expiry, wal, wal.log
      ensures Valid() && Answered(old(View()), Apply(now, order, old(Current()), FlushAll), reply, ios)
    {
      hide Filter, PutRecords;
      ghost var sv := View();
      var keys := db.KeysMatchingGlob("*", order);
      StarKeepsAll(order);
      PersistAll(keys);
      db.Clear();
      reply := OK;
      ios := [];
      NothingToLog(sv.(store := Current()));
    }

    /** Disarms every listed key, one at a time. */
    method PersistAll(keys: seq<Bytes>)
      requires Valid()
      modifies expiry
      ensures Valid() && expiry.Table() == old(expiry.Table()) - Members(keys)
    {
      hide Expiry.Consistent, Expiry.TableOf;
      ghost var before := expiry.Table();
      var i := 0;
      assert Members(keys[..0]) == {} && before - {} == before;
      while i < |keys|
        invariant 0 <= i <= |keys| && Valid()
        invariant expiry.Table() == before - Members(keys[..i])
      {
        assert keys[..i + 1] == keys[..i] + [keys[i]];
        MembersAppend(keys[..i], [keys[i]]);
        assert Members([keys[i]]) == {keys[i]};
        assert before - Members(keys[..i + 1]) == (before - Members(keys[..i])) - {keys[i]};
        expiry.Persist(keys[i]);
        i := i + 1;
      }
      assert keys[..i] == keys;
    }

    static lemma NothingToLog(sv: Server)
      ensures PutRecords(sv, DelRecords([]), []) == sv
    {
    }

    static lemma {:induction false} StarKeepsAll(order: seq<Bytes>)
      ensures Filter("*", order) == order
    {
      if order != [] {
        Glob.StarMatchesAll(order[0]);
        StarKeepsAll(order[1..]);
        assert order == [order[0]] + order[1..];
      }
    }

    // ---- the dispatcher itself ---------------------------------------------

    /** Argument checking; SET runs its option loop. */
    static method ReadOp(verb: Verb, cmd: Command) returns (op: Op)
      requires cmd != []
      ensures op == OpOf(verb, cmd)
    {
      hide ScanSetOptions;
      if verb == SET && |cmd| >= 3 {
        var r := ScanOptions(cmd);
        match r {
          case Rejected(reply) => return Answer(reply);
          case Options(nx, xx, ms) => return Keyed(cmd[1], Set(cmd[2], nx, xx, ms));
        }
      }
      op := OpOf(verb, cmd);
    }

    /** Runs the handler of a one-key operation. */
    method HandleKeyed(key: Bytes, op: KeyOp, now: int) returns (reply: Bytes, ghost ios: seq<Io>)
      requires Valid() && WellFormed(Current()) && Wanted(op)
      modifies this, db, expiry, wal, wal.log
      ensures Valid() && Served(old(View()), now, key, op, reply, ios)
    {
      hide Served, Wanted;
      match op {
        case Get => reply, ios := DoGet(key, now);
        case Set(v, nx, xx, ms) => reply, ios := DoSet(key, v, nx, xx, ms, now);
        case IncrBy(delta) => reply, ios := DoIncrBy(key, delta, now);
        case Type => reply, ios := DoType(key, now);
        case Expire(n, unit) => reply, ios := DoExpire(key, n, unit, now);
        case ExpireAt(at) => reply, ios := DoExpireAt(key, at, now);
        case Ttl(inSeconds) => reply, ios := DoTtl(key, inSeconds, now);
        case Persist => reply, ios := DoPersist(key, now);
        case Push(values, left) =>
          WantedPush(op);
          reply, ios := DoPush(key, values, left, now);
        case Pop(left) => reply, ios := DoPop(key, left, now);
        case Len => reply, ios := DoLen(key, now);
        case Range(start, stop) => reply, ios := DoRange(key, start, stop, now);
      }
    }

    static lemma WantedPush(op: KeyOp)
      requires Wanted(op) && op.Push?
      ensures op.values != []
    {
    }

    /** Runs the handler of any operation. */
    method Handle(op: Op, now: int, order: seq<Bytes>) returns (reply: Bytes, ghost ios: seq<Io>)
      requires Valid() && WellFormed(Current()) && Enumerates(order, db.entries.Keys)
      requires op.Keyed? ==> Wanted(op.op) && CellOk(At(Current(), op.key))
      modifies this, db, expiry, wal, wal.log
      ensures Valid() && Answered(old(View()), Apply(now, order, old(Current()), op), reply, ios)
    {
      hide PutRecords, DelRecords, Wanted, CellStep, Integer;
      ghost var sv := View();
      match op {
        case Answer(r) =>
          reply, ios := r, [];
          NothingToLog(sv);
        case Keyed(key, kop) => reply, ios := HandleKeyed(key, kop, now);
        case Del(keys) => reply, ios := DoDel(keys, now, order);
        case Exists(keys) => reply, ios := DoExists(keys, now, order);
        case Keys(pattern) => reply, ios := DoKeys(pattern, now, order);
        case DbSize =>
          reply, ios := Integer(|db.entries|), [];
          NothingToLog(sv);
        case FlushAll => reply, ios := DoFlushAll(now, order);
      }
    }

    /** Appends what a command owes beyond its evictions, decided from its reply. */
    method LogReply(verb: Verb, cmd: Command, reply: Bytes) returns (ghost ios: seq<Io>)
      requires Valid() && Commands.Answered(verb, cmd, reply)
      modifies this, wal, wal.log
      ensures Valid() && |ios| == |LogMutation(verb, cmd, reply, old(expiry.Table()))|
      ensures View() == PutRecords(old(View()), LogMutation(verb, cmd, reply, old(expiry.Table())), ios)
    {
      hide PutRecord, ToString;
      ios := [];
      ghost var sv := View();
      if reply == [] || reply[0] == '-' {
        return;
      }
      if verb == SET {
        if reply != "+OK\r\n" {
          return;
        }
        ghost var a := PutOne(["SET", cmd[1], cmd[2]]);
        ios := [a];
        PutRecordsOne(sv, ["SET", cmd[1], cmd[2]], a);
        ghost var mid := View();
        var at := expiry.ExpiryAt(cmd[1]);
        if at.Some? {
          var rec := ["PEXPIREAT", cmd[1], ToString(at.value)];
          ghost var b := PutOne(rec);
          PutRecordsOne(mid, rec, b);
          PutRecordsAppend(sv, [["SET", cmd[1], cmd[2]]], [a], [rec], [b]);
          ios := [a] + [b];
        }
      } else if verb == EXPIRE || verb == PEXPIRE || verb == PEXPIREAT {
        if reply == ":1\r\n" {
          var at := expiry.ExpiryAt(cmd[1]);
          var rec := if at.Some? then ["PEXPIREAT", cmd[1], ToString(at.value)] else DelRecord(cmd[1]);
          ghost var a := PutOne(rec);
          ios := [a];
          PutRecordsOne(sv, rec, a);
        }
      } else if verb == PERSIST {
        if reply == ":1\r\n" {
          ghost var a := PutOne(["PERSIST", cmd[1]]);
          ios := [a];
          PutRecordsOne(sv, ["PERSIST", cmd[1]], a);
        }
      } else {
        ios := LogVerbatim(verb, cmd, reply);
      }
    }

    /** The commands that are logged as they came. */
    method LogVerbatim(verb: Verb, cmd: Command, reply: Bytes) returns (ghost ios: seq<Io>)
      requires Valid() && reply != [] && reply[0] != '-'
      requires verb !in {SET, EXPIRE, PEXPIRE, PEXPIREAT, PERSIST}
      modifies this, wal, wal.log
      ensures Valid() && |ios| == |LogMutation(verb, cmd, reply, old(expiry.Table()))|
      ensures View() == PutRecords(old(View()), LogMutation(verb, cmd, reply, old(expiry.Table())), ios)
    {
      hide PutRecord;
      ghost var sv := View();
      ios := [];
      var log := false;
      if verb == DEL {
        log := reply != ":0\r\n";
      } else if verb == INCR || verb == DECR || verb == INCRBY || verb == LPUSH || verb == RPUSH {
        log := reply[0] == ':';
      } else if verb == LPOP || verb == RPOP {
        log := reply != "$-1\r\n";
      } else if verb == FLUSHALL {
        log := reply == "+OK\r\n";
      }
      assert LogMutation(verb, cmd, reply, expiry.Table()) == if log then [cmd] else [];
      if log {
        ghost var a := PutOne(cmd);
        ios := [a];
        PutRecordsOne(sv, cmd, a);
      }
    }

    /** A command whose name was found: handler, then log. */
    method RunVerb(verb: Verb, cmd: Command, now: int, order: seq<Bytes>) returns (reply: Bytes, ghost ios: seq<Io>)
      requires Valid() && WellFormed(Current()) && Enumerates(order, db.entries.Keys)
      requires !failed && cmd != [] && Read(cmd) == Run(verb, OpOf(verb, cmd))
      modifies this, db, expiry, wal, wal.log
      ensures Valid() && |ios| == |Owed(now, order, old(Current()), cmd)|
      ensures View() == PutRecords(old(View()).(store := Perform(now, order, old(Current()), cmd).store),
                                   Owed(now, order, old(Current()), cmd), ios)
      ensures !failed ==> reply == Perform(now, order, old(Current()), cmd).reply
    {
      hide PutRecords, Read, OpOf, Apply, LogMutation, DelRecords;
      ghost var sv, s := View(), Current();
      var op := ReadOp(verb, cmd);
      OwedIs(now, order, s, verb, cmd);
      ghost var out := Apply(now, order, s, op);
      reply, ios := Handle(op, now, order);
      ghost var dels := DelRecords(out.evicted);
      ghost var mid := View();
      PutRecordsFrame(sv.(store := out.store), dels, ios);
      ghost var muts := LogMutation(verb, cmd, reply, out.store.ttl);
      ghost var more: seq<Io> := Padding(|muts|);
      if logging && !failed {
        more := LogReply(verb, cmd, reply);
      } else {
        PutRecordsIdle(mid, muts, more);
      }
      PutRecordsAppend(sv.(store := out.store), dels, ios, muts, more);
      ios := ios + more;
    }

    /** Outcomes for appends that are not attempted. */
    static ghost function Padding(n: nat): (ios: seq<Io>)
      ensures |ios| == n
    {
      seq(n, _ => Torn(0))
    }

    static lemma OwedIs(now: int, order: seq<Bytes>, s: Store, verb: Verb, cmd: Command)
      requires WellFormed(s) && cmd != [] && Read(cmd) == Run(verb, OpOf(verb, cmd))
      ensures var op := OpOf(verb, cmd);
              && (op.Keyed? ==> CellOk(At(s, op.key)) && Wanted(op.op))
              && Perform(now, order, s, cmd) == Apply(now, order, s, op)
              && Commands.Answered(verb, cmd, Apply(now, order, s, op).reply)
              && Owed(now, order, s, cmd) == DelRecords(Apply(now, order, s, op).evicted)
                 + LogMutation(verb, cmd, Apply(now, order, s, op).reply, Apply(now, order, s, op).store.ttl)
    {
      hide OpOf, Apply, LogMutation, Wanted;
      OwedMeans(now, order, s, verb, cmd, OpOf(verb, cmd));
      if OpOf(verb, cmd).Keyed? {
        OpsAreWanted(cmd);
      }
    }

    /** Executes one client command at clock `now` and returns the reply for the client. */
    method Execute(cmd: Command, now: int, order: seq<Bytes>) returns (reply: Bytes, ghost ios: seq<Io>)
      requires Valid() && WellFormed(Current()) && Enumerates(order, db.entries.Keys)
      modifies this, db, expiry, wal, wal.log
      ensures Valid() && |ios| == |Owes(old(Current()), Exec(now, order, cmd))|
      ensures View() == DoEvent(old(View()), Exec(now, order, cmd), ios)
      ensures reply == ReplyTo(old(View()), Exec(now, order, cmd), ios)
    {
      hide PutRecords, OpOf, Apply, VerbOf, Upper;
      ghost var sv, e := View(), Exec(now, order, cmd);
      ios := Padding(|Owes(sv.store, e)|);
      if failed {
        return MISCONF, ios;
      }
      if cmd == [] {
        NothingOwed(sv);
        return EMPTY_COMMAND, ios;
      }
      var name := Upper(cmd[0]);
      if name == "SHUTDOWN" {
        NothingOwed(sv);
        shutdown := true;
        return OK, ios;
      }
      var verb := VerbOf(name);
      if verb.None? {
        NothingOwed(sv);
        return Error("ERR unknown command '" + cmd[0] + "'"), ios;
      }
      reply, ios := RunVerb(verb.value, cmd, now, order);
      if failed {
        reply := MISCONF;
      }
    }

    static lemma NothingOwed(sv: Server)
      ensures PutRecords(sv, [], []) == sv
    {
    }

    // ---- maintenance and boot ----------------------------------------------

    /** The evict-hook calls of an active cycle, in order. */
    method EvictAll(keys: seq<Bytes>) returns (ghost ios: seq<Io>)
      requires Valid()
      modifies this, db, wal, wal.log
      ensures Valid() && |ios| == |keys|
      ensures var sv := old(View());
              var s := Store(sv.store.db - Members(keys), sv.store.ttl);
              View() == PutRecords(sv.(store := s), DelRecords(keys), ios)
    {
      hide PutRecords, PutRecord;
      ghost var sv := View();
      ghost var db0, ttl := sv.store.db, sv.store.ttl;
      ios := [];
      NothingToLog(sv);
      assert Members(keys[..0]) == {} && db0 - {} == db0;
      assert keys[..0] == [];
      var i := 0;
      while i < |keys|
        invariant 0 <= i <= |keys| && Valid() && |ios| == i
        invariant View() == PutRecords(sv.(store := Store(db0 - Members(keys[..i]), ttl)), DelRecords(keys[..i]), ios)
      {
        ghost var done, before := keys[..i], View();
        ghost var s1 := Store(db0 - Members(done), ttl);
        PutRecordsFrame(sv.(store := s1), DelRecords(done), ios);
        ghost var io := EvictHook(keys[i]);
        assert keys[..i + 1] == done + [keys[i]];
        WithoutNext(db0, done, keys[i]);
        ghost var s2 := Store(db0 - Members(keys[..i + 1]), ttl);
        LogMore(sv, s1, done, ios, s2, [keys[i]], [io]);
        DelRecordsOne(keys[i]);
        PutRecordsOne(before.(store := s2), DelRecord(keys[i]), io);
        ios := ios + [io];
        i := i + 1;
      }
      assert keys[..i] == keys;
    }

    static lemma WithoutNext(m: map<Bytes, Value>, done: seq<Bytes>, k: Bytes)
      ensures (m - Members(done)) - {k} == m - Members(done + [k])
    {
    }

    /**
     The maintenance tick: one active cycle at `now`, then the deferred fsync at `syncNow`. Under
     the everysec policy, a second or more after the last sync, it leaves nothing unsynced.
     */
    method Tick(rng: Expiry.Rng, timer: Expiry.Timer, now: int, syncNow: int)
      returns (ghost keys: seq<Bytes>, ghost ios: seq<Io>, ghost ok: bool, ghost rounds: seq<seq<nat>>)
      requires Valid() && WellFormed(Current())
      modifies this, db, expiry, wal, wal.log, rng, timer
      ensures rng.picks == old(rng.picks) + Expiry.AllPicks(rounds)
      ensures Expiry.Cycled(old(expiry.slots), now, rounds, expiry.slots, old(timer.tests), timer.tests)
      ensures Valid() && Possible(old(Current()), Cycle(now, keys)) && |ios| == |keys|
      ensures View() == DoSync(DoEvent(old(View()), Cycle(now, keys), ios), syncNow, ok)
      ensures Sound(old(View())) && wal.policy.KEverySec? && syncNow - old(wal.lastFsyncMs) >= 1000 && !failed ==>
                wal.log.synced == |wal.log.bytes| && !wal.dirty
    {
      hide PutRecords, DelRecords, Expiry.Cycled, Expiry.AllPicks;
      ghost var sv := View();
      var stats, evicted;
      stats, evicted, rounds := expiry.ActiveCycle(rng, timer, now);
      keys := evicted;
      CyclePossible(sv.store, now, keys);
      ios := EvictAll(evicted);
      PutRecordsFrame(sv.(store := Without(sv.store, Members(keys))), DelRecords(keys), ios);
      ghost var mid := View();
      ok := SyncIfDue(syncNow);
      TickLeavesSynced(sv, Cycle(now, keys), ios, mid, syncNow, ok);
    }

    /** The deferred fsync, unless there is no log or it has failed. */
    method SyncIfDue(now: int) returns (ghost ok: bool)
      requires Valid()
      modifies this, wal, wal.log
      ensures Valid() && View() == DoSync(old(View()), now, ok)
    {
      ok := true;
      if logging && !failed {
        var st;
        st, ok := wal.Tick(now);
        if st != KOk {
          ReportPersistenceFailure();
        }
      }
    }

    static lemma TickLeavesSynced(sv: Server, e: Event, ios: seq<Io>, mid: Server, now: int, ok: bool)
      requires WellFormed(sv.store) && e.Cycle? && Possible(sv.store, e) && |ios| == |Owes(sv.store, e)|
      requires mid == DoEvent(sv, e, ios)
      ensures var end := DoSync(mid, now, ok);
              Sound(sv) && sv.wal.policy.KEverySec? && now - sv.wal.lastFsyncMs >= 1000 && !end.failed ==>
                end.wal.synced == |end.wal.file| && !end.wal.dirty
    {
      hide Next, Owes, Possible, Shaped, PutRecords;
      if Sound(sv) && sv.wal.policy.KEverySec? && !DoSync(mid, now, ok).failed {
        AfterSound(sv, Do(e, ios));
        PutRecordsTime(sv.(store := Next(sv.store, e)), Owes(sv.store, e), ios);
        TickSyncs(mid, now, ok);
      }
    }

    static lemma CyclePossible(s: Store, now: int, keys: seq<Bytes>)
      requires Expiry.EvictsExpired(s.ttl, now, keys)
      ensures Possible(s, Cycle(now, keys))
      ensures (set k | k in keys) == Members(keys)
    {
    }

    /** Executes the delivered records with no log attached, each at what the clock shows then. */
    method ReplayLog(clock: Clock, recs: seq<Command>) returns (ghost clocks: seq<int>)
      requires Valid() && WellFormed(Current()) && !logging && !failed
      modifies this, db, expiry, wal, wal.log, clock
      ensures Valid() && |clocks| == |recs| && clock.shown == old(clock.shown) + clocks
      ensures Current() == Replay(clocks, old(Current()), recs)
      ensures !logging && !failed && wal.State() == old(wal.State())
    {
      hide Replay, Perform, Owes;
      ghost var s0 := Current();
      clocks := [];
      assert clock.shown + [] == clock.shown;
      ReplayNone(s0);
      var i := 0;
      assert recs[..0] == [];
      while i < |recs|
        invariant 0 <= i <= |recs| && Valid() && WellFormed(Current()) && |clocks| == i
        invariant Current() == Replay(clocks, s0, recs[..i]) && clock.shown == old(clock.shown) + clocks
        invariant !logging && !failed && wal.State() == old(wal.State())
      {
        ghost var sv, s := View(), Current();
        var order := db.IterationOrder();
        var now := clock.Now();
        AppendAssoc(old(clock.shown), clocks, [now]);
        var reply, ios := Execute(recs[i], now, order);
        QuietStep(sv, Exec(now, order, recs[i]), ios);
        OrderIrrelevant(now, order, Order(s), s, recs[i]);
        ReplayNext(clocks, s0, recs[..i], now, recs[i]);
        assert recs[..i + 1] == recs[..i] + [recs[i]];
        clocks := clocks + [now];
        i := i + 1;
      }
      assert recs[..i] == recs;
    }

    static lemma ReplayNone(s: Store)
      requires WellFormed(s)
      ensures Replay([], s, []) == s
    {
    }

    static lemma ReplayNext(clocks: seq<int>, s: Store, recs: seq<Command>, now: int, rec: Command)
      requires WellFormed(s) && |clocks| == |recs|
      ensures var r := Replay(clocks, s, recs);
              Replay(clocks + [now], s, recs + [rec]) == Perform(now, Order(r), r, rec).store
    {
      hide Perform;
      ReplayAppend(clocks, [now], s, recs, [rec]);
      ReplayOne([now], Replay(clocks, s, recs), [rec]);
    }

    /** Without a log a command only changes memory. */
    static lemma QuietStep(sv: Server, e: Event, ios: seq<Io>)
      requires WellFormed(sv.store) && e.Exec? && |ios| == |Owes(sv.store, e)| && !sv.logging && !sv.failed
      ensures var r := DoEvent(sv, e, ios);
              r.store == Perform(e.now, e.order, sv.store, e.cmd).store && !r.logging && !r.failed && r.wal == sv.wal
    {
      hide Perform, Owed;
      PutRecordsIdle(sv.(store := Next(sv.store, e)), Owes(sv.store, e), ios);
    }
  }

  // ---- the multi-key loops, part-way ---------------------------------------

  ghost predicate DelProgress(goal: Count, now: int, s: Store, keys: seq<Bytes>, i: nat, n: nat, gone: seq<Bytes>)
    requires i <= |keys|
  {
    var rest := DelLoop(now, s, keys[i..]);
    goal == Count(rest.store, n + rest.n, gone + rest.evicted)
  }

  lemma DelProgressStart(now: int, s: Store, keys: seq<Bytes>)
    ensures DelProgress(DelLoop(now, s, keys), now, s, keys, 0, 0, [])
  {
  }

  lemma DelProgressStep(goal: Count, now: int, s: Store, keys: seq<Bytes>, i: nat, n: nat, gone: seq<Bytes>)
    requires i < |keys| && DelProgress(goal, now, s, keys, i, n, gone)
    ensures var k := keys[i];
            var had := Lapse(At(s, k), now).value.Some?;
            DelProgress(goal, now, if had then Put(s, k, GONE) else Touch(s, now, k), keys, i + 1,
                        n + (if had then 1 else 0), gone + EvictedAt(s, now, k))
  {
  }

  lemma DelProgressEnd(goal: Count, now: int, s: Store, keys: seq<Bytes>, n: nat, gone: seq<Bytes>)
    requires DelProgress(goal, now, s, keys, |keys|, n, gone)
    ensures goal == Count(s, n, gone)
  {
  }

  ghost predicate ExistsProgress(goal: Count, now: int, s: Store, keys: seq<Bytes>, i: nat, n: nat, gone: seq<Bytes>)
    requires i <= |keys|
  {
    var rest := ExistsLoop(now, s, keys[i..]);
    goal == Count(rest.store, n + rest.n, gone + rest.evicted)
  }

  lemma ExistsProgressStart(now: int, s: Store, keys: seq<Bytes>)
    ensures ExistsProgress(ExistsLoop(now, s, keys), now, s, keys, 0, 0, [])
  {
  }

  lemma ExistsProgressStep(goal: Count, now: int, s: Store, keys: seq<Bytes>, i: nat, n: nat, gone: seq<Bytes>)
    requires i < |keys| && ExistsProgress(goal, now, s, keys, i, n, gone)
    ensures var k := keys[i];
            ExistsProgress(goal, now, Touch(s, now, k), keys, i + 1,
                           n + (if Lapse(At(s, k), now).value.Some? then 1 else 0), gone + EvictedAt(s, now, k))
  {
  }

  lemma ExistsProgressEnd(goal: Count, now: int, s: Store, keys: seq<Bytes>, n: nat, gone: seq<Bytes>)
    requires ExistsProgress(goal, now, s, keys, |keys|, n, gone)
    ensures goal == Count(s, n, gone)
  {
  }

  ghost predicate KeysProgress(goal: Listing, now: int, s: Store, keys: seq<Bytes>, i: nat,
                               live: seq<Bytes>, gone: seq<Bytes>)
    requires i <= |keys|
  {
    var rest := KeysLoop(now, s, keys[i..]);
    goal == Listing(rest.store, live + rest.live, gone + rest.evicted)
  }

  lemma KeysProgressStart(now: int, s: Store, keys: seq<Bytes>)
    ensures KeysProgress(KeysLoop(now, s, keys), now, s, keys, 0, [], [])
  {
  }

  lemma KeysProgressStep(goal: Listing, now: int, s: Store, keys: seq<Bytes>, i: nat,
                         live: seq<Bytes>, gone: seq<Bytes>)
    requires i < |keys| && KeysProgress(goal, now, s, keys, i, live, gone)
    ensures var k := keys[i];
            KeysProgress(goal, now, Touch(s, now, k), keys, i + 1,
                         if Lapsed(At(s, k), now) then live else live + [k], gone + EvictedAt(s, now, k))
  {
  }

  lemma KeysProgressEnd(goal: Listing, now: int, s: Store, keys: seq<Bytes>, live: seq<Bytes>, gone: seq<Bytes>)
    requires KeysProgress(goal, now, s, keys, |keys|, live, gone)
    ensures goal == Listing(s, live, gone)
  {
  }
}
