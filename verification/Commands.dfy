/**
 What each command means: argument checking turns a command into an operation,
 and an operation acts on the keyspace at one clock reading. Operations on one
 key act on that key's cell after it has been seen at the current clock.
 */
module Commands {
  import opened Base
  import opened Decimal
  import opened RespWriter
  import opened Keyspace
  import Glob

  // ---- names ---------------------------------------------------------------

  function UpperChar(c: char): char {
    if 'a' <= c <= 'z' then (c as int - 32) as char else c
  }

  function LowerChar(c: char): char {
    if 'A' <= c <= 'Z' then (c as int + 32) as char else c
  }

  function Upper(s: Bytes): Bytes {
    seq(|s|, i requires 0 <= i < |s| => UpperChar(s[i]))
  }

  function Lower(s: Bytes): Bytes {
    seq(|s|, i requires 0 <= i < |s| => LowerChar(s[i]))
  }

  datatype Verb =
    | PING | ECHO | SET | GET | DEL | EXISTS | EXPIRE | PEXPIRE | TTL | PEXPIREAT | PTTL | PERSIST
    | INCR | DECR | INCRBY | TYPE | FLUSHALL | DBSIZE | KEYS | CONFIG | COMMAND
    | LPUSH | RPUSH | LPOP | RPOP | LRANGE | LLEN

  /** The dispatch table. */
  function VerbOf(name: Bytes): Option<Verb> {
    if name == "PING" then Some(PING)
    else if name == "ECHO" then Some(ECHO)
    else if name == "SET" then Some(SET)
    else if name == "GET" then Some(GET)
    else if name == "DEL" then Some(DEL)
    else if name == "EXISTS" then Some(EXISTS)
    else if name == "EXPIRE" then Some(EXPIRE)
    else if name == "PEXPIRE" then Some(PEXPIRE)
    else if name == "TTL" then Some(TTL)
    else if name == "PEXPIREAT" then Some(PEXPIREAT)
    else if name == "PTTL" then Some(PTTL)
    else if name == "PERSIST" then Some(PERSIST)
    else if name == "INCR" then Some(INCR)
    else if name == "DECR" then Some(DECR)
    else if name == "INCRBY" then Some(INCRBY)
    else if name == "TYPE" then Some(TYPE)
    else if name == "FLUSHALL" then Some(FLUSHALL)
    else if name == "DBSIZE" then Some(DBSIZE)
    else if name == "KEYS" then Some(KEYS)
    else if name == "CONFIG" then Some(CONFIG)
    else if name == "COMMAND" then Some(COMMAND)
    else if name == "LPUSH" then Some(LPUSH)
    else if name == "RPUSH" then Some(RPUSH)
    else if name == "LPOP" then Some(LPOP)
    else if name == "RPOP" then Some(RPOP)
    else if name == "LRANGE" then Some(LRANGE)
    else if name == "LLEN" then Some(LLEN)
    else None
  }

  // ---- operations ----------------------------------------------------------

  /** An operation on one key. */
  datatype KeyOp =
    | Get
    | Set(value: Bytes, nx: bool, xx: bool, expireMs: Option<int>)
    | IncrBy(delta: int)
    | Type
    | Expire(n: int, unit: int)
    | ExpireAt(atMs: int)
    | Ttl(inSeconds: bool)
    | Persist
    | Push(values: seq<Bytes>, left: bool)
    | Pop(left: bool)
    | Len
    | Range(start: int, stop: int)

  datatype Op =
    | Answer(reply: Bytes)
    | Keyed(key: Bytes, op: KeyOp)
    | Del(keys: seq<Bytes>)
    | Exists(keys: seq<Bytes>)
    | Keys(pattern: Bytes)
    | DbSize
    | FlushAll

  function WrongArity(name: Bytes): Bytes {
    Error("ERR wrong number of arguments for '" + name + "' command")
  }

  const WRONGTYPE: Bytes := Error("WRONGTYPE Operation against a key holding the wrong kind of value")
  const NOT_AN_INTEGER: Bytes := Error("ERR value is not an integer or out of range")
  const SYNTAX_ERROR: Bytes := Error("ERR syntax error")
  const INVALID_EXPIRE: Bytes := Error("ERR invalid expire time in 'set' command")
  const MISCONF: Bytes := Error("MISCONF persistence failed; restart required")
  const OK: Bytes := Simple("OK")

  // ---- argument checking ---------------------------------------------------

  datatype SetOptions =
    | Rejected(reply: Bytes)
    | Options(nx: bool, xx: bool, expireMs: Option<int>)

  /** The option loop of SET from argument i on. */
  function ScanSetOptions(cmd: Command, i: nat, nx: bool, xx: bool, expireMs: Option<int>): SetOptions
    decreases if i < |cmd| then |cmd| - i else 0
  {
    if i >= |cmd| then Options(nx, xx, expireMs)
    else
      var opt := Upper(cmd[i]);
      if opt == "NX" && !xx then ScanSetOptions(cmd, i + 1, true, xx, expireMs)
      else if opt == "XX" && !nx then ScanSetOptions(cmd, i + 1, nx, true, expireMs)
      else if (opt == "EX" || opt == "PX") && expireMs.None? && i + 1 < |cmd| then
        var n := ParseI64(cmd[i + 1]);
        if n.None? then Rejected(NOT_AN_INTEGER)
        else if n.value <= 0 then Rejected(INVALID_EXPIRE)
        else ScanSetOptions(cmd, i + 2, nx, xx, Some(if opt == "EX" then n.value * 1000 else n.value))
      else Rejected(SYNTAX_ERROR)
  }

  function ParseSet(cmd: Command): Op {
    if |cmd| < 3 then Answer(WrongArity("set"))
    else
      match ScanSetOptions(cmd, 3, false, false, None)
      case Rejected(r) => Answer(r)
      case Options(nx, xx, ms) => Keyed(cmd[1], Set(cmd[2], nx, xx, ms))
  }

  function ParseIncrBy(cmd: Command): Op {
    if |cmd| != 3 then Answer(WrongArity("incrby"))
    else if ParseI64(cmd[2]).None? then Answer(NOT_AN_INTEGER)
    else Keyed(cmd[1], IncrBy(ParseI64(cmd[2]).value))
  }

  function ParseExpire(cmd: Command, name: Bytes, unit: int): Op {
    if |cmd| != 3 then Answer(WrongArity(name))
    else if ParseI64(cmd[2]).None? then Answer(NOT_AN_INTEGER)
    else Keyed(cmd[1], Expire(ParseI64(cmd[2]).value, unit))
  }

  function ParseExpireAt(cmd: Command): Op {
    if |cmd| != 3 then Answer(WrongArity("pexpireat"))
    else if ParseI64(cmd[2]).None? then Answer(NOT_AN_INTEGER)
    else Keyed(cmd[1], ExpireAt(ParseI64(cmd[2]).value))
  }

  function ParseRange(cmd: Command): Op {
    if |cmd| != 4 then Answer(WrongArity("lrange"))
    else if ParseI64(cmd[2]).None? || ParseI64(cmd[3]).None? then Answer(NOT_AN_INTEGER)
    else Keyed(cmd[1], Range(ParseI64(cmd[2]).value, ParseI64(cmd[3]).value))
  }

  function ParseKeyed(cmd: Command, name: Bytes, op: KeyOp): Op {
    if |cmd| != 2 then Answer(WrongArity(name)) else Keyed(cmd[1], op)
  }

  function ParsePush(cmd: Command, name: Bytes, left: bool): Op {
    if |cmd| < 3 then Answer(WrongArity(name)) else Keyed(cmd[1], Push(cmd[2..], left))
  }

  function AnswerPing(cmd: Command): Bytes {
    if |cmd| == 1 then Simple("PONG")
    else if |cmd| == 2 then Bulk(cmd[1])
    else WrongArity("ping")
  }

  function AnswerConfig(cmd: Command): Bytes {
    if |cmd| >= 2 && Upper(cmd[1]) == "GET" then
      if |cmd| != 3 then WrongArity("config|get")
      else
        var p := Lower(cmd[2]);
        if p == "save" then Array([Bulk(p), Bulk("")])
        else if p == "appendonly" then Array([Bulk(p), Bulk("no")])
        else if p == "maxmemory" then Array([Bulk(p), Bulk("0")])
        else EMPTY_ARRAY
    else Error("ERR CONFIG subcommand must be GET")
  }

  /** Argument checking of every handler, up to the point where it touches the keyspace. */
  function OpOf(verb: Verb, cmd: Command): Op
    requires cmd != []
  {
    match verb
    case PING => Answer(AnswerPing(cmd))
    case ECHO => Answer(if |cmd| != 2 then WrongArity("echo") else Bulk(cmd[1]))
    case SET => ParseSet(cmd)
    case GET => ParseKeyed(cmd, "get", Get)
    case DEL => if |cmd| < 2 then Answer(WrongArity("del")) else Del(cmd[1..])
    case EXISTS => if |cmd| < 2 then Answer(WrongArity("exists")) else Exists(cmd[1..])
    case EXPIRE => ParseExpire(cmd, "expire", 1000)
    case PEXPIRE => ParseExpire(cmd, "pexpire", 1)
    case TTL => ParseKeyed(cmd, "ttl", Ttl(true))
    case PEXPIREAT => ParseExpireAt(cmd)
    case PTTL => ParseKeyed(cmd, "pttl", Ttl(false))
    case PERSIST => ParseKeyed(cmd, "persist", Persist)
    case INCR => ParseKeyed(cmd, "incr", IncrBy(1))
    case DECR => ParseKeyed(cmd, "decr", IncrBy(-1))
    case INCRBY => ParseIncrBy(cmd)
    case TYPE => ParseKeyed(cmd, "type", Type)
    case FLUSHALL => if |cmd| != 1 then Answer(WrongArity("flushall")) else FlushAll
    case DBSIZE => if |cmd| != 1 then Answer(WrongArity("dbsize")) else DbSize
    case KEYS => if |cmd| != 2 then Answer(WrongArity("keys")) else Keys(cmd[1])
    case CONFIG => Answer(AnswerConfig(cmd))
    case COMMAND => Answer(EMPTY_ARRAY)
    case LPUSH => ParsePush(cmd, "lpush", true)
    case RPUSH => ParsePush(cmd, "rpush", false)
    case LPOP => ParseKeyed(cmd, "lpop", Pop(true))
    case RPOP => ParseKeyed(cmd, "rpop", Pop(false))
    case LRANGE => ParseRange(cmd)
    case LLEN => ParseKeyed(cmd, "llen", Len)
  }

  // ---- one key -------------------------------------------------------------

  function Reverse(s: seq<Bytes>): (r: seq<Bytes>)
    ensures |r| == |s|
  {
    if s == [] then [] else Reverse(s[1..]) + [s[0]]
  }

  /** A list after pushing values one at a time. */
  function Pushed(items: seq<Bytes>, values: seq<Bytes>, left: bool): seq<Bytes> {
    if left then Reverse(values) + items else items + values
  }

  /** A position counted from the tail when negative. */
  function FromTail(n: nat, i: int): int {
    if i < 0 then i + n else i
  }

  function FirstIndex(n: nat, start: int): nat {
    if FromTail(n, start) < 0 then 0 else FromTail(n, start)
  }

  function LastIndex(n: nat, stop: int): int {
    if FromTail(n, stop) >= n then n - 1 else FromTail(n, stop)
  }

  /** The elements from start to stop inclusive, positions clamped to the list. */
  function Slice(items: seq<Bytes>, start: int, stop: int): seq<Bytes> {
    var lo, hi := FirstIndex(|items|, start), LastIndex(|items|, stop);
    if lo > hi || lo >= |items| then [] else items[lo..hi + 1]
  }

  function Bulks(items: seq<Bytes>): seq<Bytes> {
    seq(|items|, i requires 0 <= i < |items| => Bulk(items[i]))
  }

  function TypeName(v: Option<Value>): Bytes {
    match v
    case None => "none"
    case Some(Str(_)) => "string"
    case Some(List(_)) => "list"
  }

  /** Items of a list-or-absent key. */
  function ItemsOf(v: Option<Value>): seq<Bytes> {
    if v.Some? && v.value.List? then v.value.items else []
  }

  predicate HoldsList(v: Option<Value>) {
    v.Some? && v.value.List?
  }

  predicate HoldsString(v: Option<Value>) {
    v.Some? && v.value.Str?
  }

  /** INCR and friends: the TTL is kept, and nothing changes on an error. */
  function IncrCell(c: Cell, delta: int): (Cell, Bytes) {
    if HoldsList(c.value) then (c, WRONGTYPE)
    else
      var cur := if c.value.Some? then ParseI64(c.value.value.s) else Some(0);
      if cur.None? || !InI64(cur.value + delta) then (c, NOT_AN_INTEGER)
      else
        var next := cur.value + delta;
        (Cell(Some(Str(ToString(next))), c.deadline), Integer(next))
  }

  function PopCell(c: Cell, left: bool): (Cell, Bytes)
    requires CellOk(c)
  {
    if HoldsString(c.value) then (c, WRONGTYPE)
    else if c.value.None? then (c, NULL_BULK)
    else
      var items := c.value.value.items;
      var n := |items|;
      var popped := if left then items[0] else items[n - 1];
      var rest := if left then items[1..] else items[..n - 1];
      (if rest == [] then GONE else Cell(Some(List(rest)), c.deadline), Bulk(popped))
  }

  function TtlReply(now: int, c: Cell, inSeconds: bool): Bytes {
    if c.value.None? then Integer(-2)
    else if c.deadline.None? then Integer(-1)
    else
      var left := c.deadline.value - now;
      var remaining := if left < 0 then 0 else left;
      Integer(if inSeconds then (remaining + 500) / 1000 else remaining)
  }

  /** The handler of a one-key operation, on the cell it finds after the lazy-expiry gate. */
  function CellStep(now: int, c: Cell, op: KeyOp): (r: (Cell, Bytes))
    requires CellOk(c)
    ensures CellOk(r.0)
  {
    match op
    case Get =>
      (c, if HoldsList(c.value) then WRONGTYPE
          else if c.value.None? then NULL_BULK else Bulk(c.value.value.s))
    case Set(v, nx, xx, ms) =>
      if (nx && c.value.Some?) || (xx && c.value.None?) then (c, NULL_BULK)
      else (Cell(Some(Str(v)), if ms.Some? then Some(now + ms.value) else None), OK)
    case IncrBy(delta) => IncrCell(c, delta)
    case Type => (c, Simple(TypeName(c.value)))
    case Expire(n, unit) =>
      if c.value.None? then (c, Integer(0))
      else if n <= 0 then (GONE, Integer(1))
      else (Cell(c.value, Some(now + n * unit)), Integer(1))
    case ExpireAt(at) =>
      if c.value.None? then (c, Integer(0))
      else if at <= now then (GONE, Integer(1))
      else (Cell(c.value, Some(at)), Integer(1))
    case Ttl(inSeconds) => (c, TtlReply(now, c, inSeconds))
    case Persist =>
      if c.value.None? || c.deadline.None? then (c, Integer(0))
      else (Cell(c.value, None), Integer(1))
    case Push(values, left) =>
      if HoldsString(c.value) then (c, WRONGTYPE)
      else
        var items := Pushed(ItemsOf(c.value), values, left);
        if items == [] then (c, Integer(0)) else (Cell(Some(List(items)), c.deadline), Integer(|items|))
    case Pop(left) => PopCell(c, left)
    case Len => (c, if HoldsString(c.value) then WRONGTYPE else Integer(|ItemsOf(c.value)|))
    case Range(start, stop) =>
      (c, if HoldsString(c.value) then WRONGTYPE else Array(Bulks(Slice(ItemsOf(c.value), start, stop))))
  }

  // ---- whole operations ----------------------------------------------------

  /** State after a handler, its reply, and the evict-hook calls it made, in order. */
  datatype Outcome = Outcome(store: Store, reply: Bytes, evicted: seq<Bytes>)

  function EvictedAt(s: Store, now: int, k: Bytes): seq<Bytes> {
    if Lapsed(At(s, k), now) then [k] else []
  }

  /** A key seen through the lazy-expiry gate. */
  function Touch(s: Store, now: int, k: Bytes): Store {
    Put(s, k, Lapse(At(s, k), now))
  }

  function ApplyKeyed(now: int, s: Store, k: Bytes, op: KeyOp): Outcome
    requires CellOk(At(s, k))
  {
    var (c, reply) := CellStep(now, Lapse(At(s, k), now), op);
    Outcome(Put(s, k, c), reply, EvictedAt(s, now, k))
  }

  datatype Count = Count(store: Store, n: nat, evicted: seq<Bytes>)

  function DelLoop(now: int, s: Store, keys: seq<Bytes>): Count
    decreases |keys|
  {
    if keys == [] then Count(s, 0, [])
    else
      var k := keys[0];
      var there := Lapse(At(s, k), now).value.Some?;
      var r := DelLoop(now, Put(s, k, if there then GONE else Lapse(At(s, k), now)), keys[1..]);
      Count(r.store, r.n + (if there then 1 else 0), EvictedAt(s, now, k) + r.evicted)
  }

  function ExistsLoop(now: int, s: Store, keys: seq<Bytes>): Count
    decreases |keys|
  {
    if keys == [] then Count(s, 0, [])
    else
      var k := keys[0];
      var there := Lapse(At(s, k), now).value.Some?;
      var r := ExistsLoop(now, Touch(s, now, k), keys[1..]);
      Count(r.store, r.n + (if there then 1 else 0), EvictedAt(s, now, k) + r.evicted)
  }

  datatype Listing = Listing(store: Store, live: seq<Bytes>, evicted: seq<Bytes>)

  /** KEYS over the candidates in iteration order: the dead are dropped, the rest listed. */
  function KeysLoop(now: int, s: Store, candidates: seq<Bytes>): Listing
    decreases |candidates|
  {
    if candidates == [] then Listing(s, [], [])
    else
      var k := candidates[0];
      var r := KeysLoop(now, Touch(s, now, k), candidates[1..]);
      if Lapsed(At(s, k), now) then Listing(r.store, r.live, [k] + r.evicted)
      else Listing(r.store, [k] + r.live, r.evicted)
  }

  predicate GlobMatches(pattern: Bytes, key: Bytes) {
    Glob.Matches(Glob.Tokens(pattern, 0), key)
  }

  function Filter(pattern: Bytes, order: seq<Bytes>): seq<Bytes> {
    if order == [] then []
    else (if GlobMatches(pattern, order[0]) then [order[0]] else []) + Filter(pattern, order[1..])
  }

  /** `order` is an iteration order of the keyspace's hash map. */
  predicate Enumerates(order: seq<Bytes>, keys: set<Bytes>) {
    Distinct(order) && (set k | k in order) == keys
  }

  /** A handler's effect at clock `now`, where `order` is the map's iteration order. */
  function Apply(now: int, order: seq<Bytes>, s: Store, op: Op): Outcome
    requires op.Keyed? ==> CellOk(At(s, op.key))
  {
    match op
    case Answer(reply) => Outcome(s, reply, [])
    case Keyed(k, kop) => ApplyKeyed(now, s, k, kop)
    case Del(keys) =>
      var r := DelLoop(now, s, keys);
      Outcome(r.store, Integer(r.n), r.evicted)
    case Exists(keys) =>
      var r := ExistsLoop(now, s, keys);
      Outcome(r.store, Integer(r.n), r.evicted)
    case Keys(pattern) =>
      var r := KeysLoop(now, s, Filter(pattern, order));
      Outcome(r.store, Array(Bulks(r.live)), r.evicted)
    case DbSize => Outcome(s, Integer(|s.db|), [])
    case FlushAll => Outcome(Store(map[], s.ttl - s.db.Keys), OK, [])
  }

  // ---- what is logged ------------------------------------------------------

  /** A mutation was answered, so the arguments the log needs are there. */
  predicate Answered(verb: Verb, cmd: Command, reply: Bytes) {
    && (verb == SET && reply == "+OK\r\n" ==> |cmd| >= 3)
    && (verb in {EXPIRE, PEXPIRE, PEXPIREAT, PERSIST} && reply == ":1\r\n" ==> |cmd| >= 2)
  }

  function DeadlineRecord(key: Bytes, at: Option<int>): seq<Command> {
    if at.Some? then [["PEXPIREAT", key, ToString(at.value)]] else []
  }

  /** The records owed for a command, decided from the bytes of its reply. */
  function LogMutation(verb: Verb, cmd: Command, reply: Bytes, ttl: map<Bytes, int>): seq<Command>
    requires Answered(verb, cmd, reply)
  {
    if reply == [] || reply[0] == '-' then []
    else if verb == SET then
      if reply != "+OK\r\n" then []
      else [["SET", cmd[1], cmd[2]]] + DeadlineRecord(cmd[1], Lookup(ttl, cmd[1]))
    else if verb in {EXPIRE, PEXPIRE, PEXPIREAT} then
      if reply != ":1\r\n" then []
      else if cmd[1] in ttl then DeadlineRecord(cmd[1], Some(ttl[cmd[1]]))
      else [["DEL", cmd[1]]]
    else if verb == PERSIST then
      if reply == ":1\r\n" then [["PERSIST", cmd[1]]] else []
    else if verb == DEL then
      if reply != ":0\r\n" then [cmd] else []
    else if verb in {INCR, DECR, INCRBY, LPUSH, RPUSH} then
      if reply[0] == ':' then [cmd] else []
    else if verb in {LPOP, RPOP} then
      if reply != "$-1\r\n" then [cmd] else []
    else if verb == FLUSHALL then
      if reply == "+OK\r\n" then [cmd] else []
    else []
  }

  function DelRecord(key: Bytes): Command {
    ["DEL", key]
  }

  /** The evict hook logs each eviction as an explicit DEL. */
  function DelRecords(keys: seq<Bytes>): (recs: seq<Command>)
    ensures |recs| == |keys|
  {
    seq(|keys|, i requires 0 <= i < |keys| => DelRecord(keys[i]))
  }
}
