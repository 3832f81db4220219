/**
 What a client reads off the wire: for every command, spelled in either case, the reply bytes
 and what they say about the key, in terms of the two maps and the clock.
 */
module Replies {
  import opened Base
  import opened Decimal
  import opened RespWriter
  import opened Keyspace
  import opened Commands
  import opened Laws
  import opened Execution
  import Db

  // ---- names ---------------------------------------------------------------

  /** The word is the name, in any mixture of upper and lower case. */
  predicate Spelled(word: Bytes, name: Bytes) {
    && |word| == |name|
    && forall i :: 0 <= i < |word| ==>
         word[i] == name[i] || ('A' <= name[i] <= 'Z' && word[i] as int == name[i] as int + 32)
  }

  predicate Capitals(name: Bytes) {
    forall i :: 0 <= i < |name| ==> 'A' <= name[i] <= 'Z'
  }

  lemma SpelledUpper(word: Bytes, name: Bytes)
    requires Capitals(name)
    ensures Spelled(word, name) <==> Upper(word) == name
  {
    assert |Upper(word)| == |word|;
    if Upper(word) == name {
      assert forall i :: 0 <= i < |word| ==> name[i] == UpperChar(word[i]);
    }
  }

  /** The word a command is called by. */
  function NameOf(verb: Verb): Bytes {
    match verb
    case PING => "PING" case ECHO => "ECHO" case SET => "SET" case GET => "GET" case DEL => "DEL"
    case EXISTS => "EXISTS" case EXPIRE => "EXPIRE" case PEXPIRE => "PEXPIRE" case TTL => "TTL"
    case PEXPIREAT => "PEXPIREAT" case PTTL => "PTTL" case PERSIST => "PERSIST" case INCR => "INCR"
    case DECR => "DECR" case INCRBY => "INCRBY" case TYPE => "TYPE" case FLUSHALL => "FLUSHALL"
    case DBSIZE => "DBSIZE" case KEYS => "KEYS" case CONFIG => "CONFIG" case COMMAND => "COMMAND"
    case LPUSH => "LPUSH" case RPUSH => "RPUSH" case LPOP => "LPOP" case RPOP => "RPOP"
    case LRANGE => "LRANGE" case LLEN => "LLEN"
  }

  lemma NamesDispatch(verb: Verb)
    ensures VerbOf(NameOf(verb)) == Some(verb) && Capitals(NameOf(verb)) && NameOf(verb) != "SHUTDOWN"
  {
    hide VerbOf, NameOf, Capitals;
    if verb in {PING, ECHO, SET, GET, DEL, EXISTS, EXPIRE, PEXPIRE, TTL} {
      FirstNames(verb);
    } else if verb in {PEXPIREAT, PTTL, PERSIST, INCR, DECR, INCRBY} {
      SecondNames(verb);
    } else if verb in {TYPE, FLUSHALL, DBSIZE, KEYS, CONFIG, COMMAND} {
      ThirdNames(verb);
    } else if verb in {LPUSH, RPUSH, LPOP} {
      FourthNames(verb);
    } else if verb == RPOP {
      FifthName(verb);
    } else {
      LastNames(verb);
    }
  }

  lemma FirstNames(verb: Verb)
    requires verb in {PING, ECHO, SET, GET, DEL, EXISTS, EXPIRE, PEXPIRE, TTL}
    ensures VerbOf(NameOf(verb)) == Some(verb) && Capitals(NameOf(verb)) && NameOf(verb) != "SHUTDOWN"
  {
  }

  lemma SecondNames(verb: Verb)
    requires verb in {PEXPIREAT, PTTL, PERSIST, INCR, DECR, INCRBY}
    ensures VerbOf(NameOf(verb)) == Some(verb) && Capitals(NameOf(verb)) && NameOf(verb) != "SHUTDOWN"
  {
  }

  lemma ThirdNames(verb: Verb)
    requires verb in {TYPE, FLUSHALL, DBSIZE, KEYS, CONFIG, COMMAND}
    ensures VerbOf(NameOf(verb)) == Some(verb) && Capitals(NameOf(verb)) && NameOf(verb) != "SHUTDOWN"
  {
  }

  lemma FourthNames(verb: Verb)
    requires verb in {LPUSH, RPUSH, LPOP}
    ensures VerbOf(NameOf(verb)) == Some(verb) && Capitals(NameOf(verb)) && NameOf(verb) != "SHUTDOWN"
  {
  }

  lemma FifthName(verb: Verb)
    requires verb == RPOP
    ensures VerbOf(NameOf(verb)) == Some(verb) && Capitals(NameOf(verb)) && NameOf(verb) != "SHUTDOWN"
  {
  }

  lemma LastNames(verb: Verb)
    requires verb in {LRANGE, LLEN}
    ensures VerbOf(NameOf(verb)) == Some(verb) && Capitals(NameOf(verb)) && NameOf(verb) != "SHUTDOWN"
  {
  }

  /** The command is called by this name, in any spelling, and has n words. */
  predicate Called(cmd: Command, verb: Verb, n: nat) {
    |cmd| == n && n > 0 && Spelled(cmd[0], NameOf(verb))
  }

  /** A command called by a name, in any spelling, is read as that command. */
  lemma CalledBy(cmd: Command, verb: Verb)
    requires cmd != [] && Spelled(cmd[0], NameOf(verb))
    ensures Read(cmd) == Run(verb, OpOf(verb, cmd))
  {
    hide VerbOf, OpOf, NameOf, Capitals;
    NamesDispatch(verb);
    SpelledUpper(cmd[0], NameOf(verb));
  }

  // ---- keys ----------------------------------------------------------------

  /** The key exists and its deadline, if it has one, lies ahead. */
  predicate Alive(s: Store, now: int, k: Bytes) {
    k in s.db && (k in s.ttl ==> now < s.ttl[k])
  }

  lemma FoundMeans(s: Store, now: int, k: Bytes)
    requires WellFormed(s)
    ensures Found(s, now, k) == if Alive(s, now, k) then Cell(Some(s.db[k]), Lookup(s.ttl, k)) else GONE
    ensures CellOk(At(s, k))
  {
    assert CellOk(At(s, k));
  }

  /** Nothing a client could see has changed. */
  predicate SameView(s: Store, now: int, s': Store) {
    Purge(s', now) == Purge(s, now)
  }

  /** No other key was touched. */
  ghost predicate OnlyAt(s: Store, k: Bytes, s': Store) {
    forall j :: j != k ==> At(s', j) == At(s, j)
  }

  /** Nothing was touched, but for this key if it had lapsed: then it is gone. */
  ghost predicate Kept(s: Store, now: int, k: Bytes, s': Store) {
    OnlyAt(s, k, s') && At(s', k) == if Alive(s, now, k) then At(s, k) else GONE
  }

  /** Which no client can see. */
  lemma KeptView(s: Store, now: int, k: Bytes, s': Store)
    requires WellFormed(s) && Kept(s, now, k, s')
    ensures SameView(s, now, s')
  {
    forall j
      ensures At(Purge(s', now), j) == At(Purge(s, now), j)
    {
      AtPurge(s, now, j);
      AtPurge(s', now, j);
      FoundMeans(s, now, j);
    }
    SameCells(Purge(s', now), Purge(s, now));
  }

  lemma PutOnly(s: Store, k: Bytes, c: Cell)
    ensures At(Put(s, k, c), k) == c && OnlyAt(s, k, Put(s, k, c))
  {
    forall j
      ensures At(Put(s, k, c), j) == if j == k then c else At(s, j)
    {
      AtPut(s, k, c, j);
    }
  }

  /** What a one-key command does, with the key as the client knows it. */
  lemma KeyCommand(now: int, order: seq<Bytes>, s: Store, cmd: Command, verb: Verb, k: Bytes, op: KeyOp)
    requires WellFormed(s) && cmd != [] && Spelled(cmd[0], NameOf(verb)) && OpOf(verb, cmd) == Keyed(k, op)
    ensures var c := if Alive(s, now, k) then Cell(Some(s.db[k]), Lookup(s.ttl, k)) else GONE;
            var out := Perform(now, order, s, cmd);
            && CellOk(c) && CellStep(now, c, op) == (At(out.store, k), out.reply) && OnlyAt(s, k, out.store)
            && (At(out.store, k) == c ==> Kept(s, now, k, out.store))
  {
    hide Read, OpOf, CellStep, Apply, OnlyAt, Spelled, NameOf;
    CalledBy(cmd, verb);
    FoundMeans(s, now, k);
    PerformKeyed(now, order, s, cmd, verb, k, op);
    PutOnly(s, k, CellStep(now, Found(s, now, k), op).0);
  }

  // ---- reply bytes ---------------------------------------------------------

  const NULL_REPLY: Bytes := "$-1\r\n"
  const OK_REPLY: Bytes := "+OK\r\n"
  const TYPE_ERROR: Bytes := "-" + "WRONGTYPE Operation against a key holding the wrong kind of value" + "\r\n"
  const NUMBER_ERROR: Bytes := "-" + "ERR value is not an integer or out of range" + "\r\n"

  function BulkReply(v: Bytes): Bytes {
    "$" + ToString(|v|) + "\r\n" + v + "\r\n"
  }

  function NumberReply(n: int): Bytes {
    ":" + ToString(n) + "\r\n"
  }

  function ArrayReply(items: seq<Bytes>): Bytes {
    "*" + ToString(|items|) + "\r\n" + BulkReplies(items)
  }

  function BulkReplies(items: seq<Bytes>): Bytes {
    if items == [] then [] else BulkReply(items[0]) + BulkReplies(items[1..])
  }

  lemma ErrorBytes()
    ensures WRONGTYPE == TYPE_ERROR && NOT_AN_INTEGER == NUMBER_ERROR
  {
  }

  lemma NumberBytes(n: int)
    ensures Integer(n) == NumberReply(n) && Integer(n)[0] == ':'
    ensures Integer(n) == ":0\r\n" <==> n == 0
    ensures Integer(n) == ":1\r\n" <==> n == 1
    ensures Integer(n) == ":-1\r\n" <==> n == -1
    ensures Integer(n) == ":-2\r\n" <==> n == -2
  {
    IntegerLiterals();
    assert Integer(-1) == ":-1\r\n" && Integer(-2) == ":-2\r\n";
    IntegerInjective(n, 0);
    IntegerInjective(n, 1);
    IntegerInjective(n, -1);
    IntegerInjective(n, -2);
  }

  lemma BulkBytes(v: Bytes)
    ensures Bulk(v) == BulkReply(v)
  {
  }

  lemma {:induction false} ArrayBytes(items: seq<Bytes>)
    ensures Flatten(Bulks(items)) == BulkReplies(items) && Array(Bulks(items)) == ArrayReply(items)
  {
    hide Bulk, BulkReply, ToString;
    if items != [] {
      BulkBytes(items[0]);
      ArrayBytes(items[1..]);
      assert Bulks(items)[1..] == Bulks(items[1..]);
    }
  }

  // ---- strings -------------------------------------------------------------

  /** GET: the string, or the null bulk exactly when the key is absent or lapsed, or the type error for a list. */
  lemma GetReply(now: int, order: seq<Bytes>, s: Store, cmd: Command)
    requires WellFormed(s) && Called(cmd, GET, 2)
    ensures var out, k := Perform(now, order, s, cmd), cmd[1];
            && Kept(s, now, k, out.store)
            && (out.reply == NULL_REPLY <==> !Alive(s, now, k))
            && (out.reply == TYPE_ERROR <==> Alive(s, now, k) && s.db[k].List?)
            && (Alive(s, now, k) && s.db[k].Str? ==> out.reply == BulkReply(s.db[k].s))
  {
    hide Perform, Kept, OnlyAt, Spelled, NameOf;
    ErrorBytes();
    KeyCommand(now, order, s, cmd, GET, cmd[1], Get);
    if Alive(s, now, cmd[1]) && s.db[cmd[1]].Str? {
      BulkIsNotNull(s.db[cmd[1]].s);
    }
  }

  /** TYPE: a name for each kind of value, and one for no value. */
  lemma TypeReply(now: int, order: seq<Bytes>, s: Store, cmd: Command)
    requires WellFormed(s) && Called(cmd, TYPE, 2)
    ensures var out, k := Perform(now, order, s, cmd), cmd[1];
            && Kept(s, now, k, out.store)
            && (!Alive(s, now, k) ==> out.reply == "+none\r\n")
            && (Alive(s, now, k) && s.db[k].Str? ==> out.reply == "+string\r\n")
            && (Alive(s, now, k) && s.db[k].List? ==> out.reply == "+list\r\n")
  {
    hide Perform, Kept, OnlyAt, Spelled, NameOf;
    KeyCommand(now, order, s, cmd, TYPE, cmd[1], Type);
  }

  /** How much a command of the INCR family adds. */
  function Added(cmd: Command): (n: Option<int>)
    ensures n.Some? ==> |cmd| >= 2 && InI64(n.value)
  {
    if Called(cmd, INCR, 2) then Some(1)
    else if Called(cmd, DECR, 2) then Some(-1)
    else if Called(cmd, INCRBY, 3) then ParseI64(cmd[2])
    else None
  }

  /** The number a key stands for: none for a list or any other text, and 0 if there is no key. */
  function NumberAt(s: Store, now: int, k: Bytes): Option<int> {
    if !Alive(s, now, k) then Some(0)
    else if s.db[k].List? then None
    else ParseI64(s.db[k].s)
  }

  /** INCR, DECR, INCRBY: the sum is stored and answered and the TTL kept, or an error and nothing changes. */
  lemma IncrReply(now: int, order: seq<Bytes>, s: Store, cmd: Command)
    requires WellFormed(s) && Added(cmd).Some?
    ensures var out, k, n := Perform(now, order, s, cmd), cmd[1], NumberAt(s, now, cmd[1]);
            if n.Some? && InI64(n.value + Added(cmd).value) then
              var sum := n.value + Added(cmd).value;
              && out.reply == NumberReply(sum) && OnlyAt(s, k, out.store)
              && At(out.store, k) == Cell(Some(Str(ToString(sum))), if Alive(s, now, k) then Lookup(s.ttl, k) else None)
            else
              && Kept(s, now, k, out.store)
              && out.reply == if Alive(s, now, k) && s.db[k].List? then TYPE_ERROR else NUMBER_ERROR
  {
    hide Perform, Kept, OnlyAt, ParseI64, ToString, Spelled, NameOf;
    ErrorBytes();
    var verb := if Called(cmd, INCR, 2) then INCR else if Called(cmd, DECR, 2) then DECR else INCRBY;
    KeyCommand(now, order, s, cmd, verb, cmd[1], IncrBy(Added(cmd).value));
  }

  // ---- deadlines -----------------------------------------------------------

  /** The deadline a command asks for: in seconds or milliseconds from now, or outright. */
  function Asked(now: int, cmd: Command): (at: Option<int>)
    ensures at.Some? ==> |cmd| == 3
  {
    if |cmd| != 3 || ParseI64(cmd[2]).None? then None
    else if Called(cmd, EXPIRE, 3) then Some(now + 1000 * ParseI64(cmd[2]).value)
    else if Called(cmd, PEXPIRE, 3) then Some(now + ParseI64(cmd[2]).value)
    else if Called(cmd, PEXPIREAT, 3) then Some(ParseI64(cmd[2]).value)
    else None
  }

  /** EXPIRE, PEXPIRE, PEXPIREAT: 1 exactly when there is a key; it gets the deadline, or goes if that is not ahead. */
  lemma ExpireReply(now: int, order: seq<Bytes>, s: Store, cmd: Command)
    requires WellFormed(s) && Asked(now, cmd).Some?
    ensures var out, k, at := Perform(now, order, s, cmd), cmd[1], Asked(now, cmd).value;
            if Alive(s, now, k) then
              && out.reply == ":1\r\n" && OnlyAt(s, k, out.store)
              && At(out.store, k) == if at <= now then GONE else Cell(Some(s.db[k]), Some(at))
            else out.reply == ":0\r\n" && Kept(s, now, k, out.store)
  {
    hide Perform, Kept, OnlyAt, ParseI64, ToString, Spelled, NameOf;
    IntegerLiterals();
    var n := ParseI64(cmd[2]).value;
    if Called(cmd, EXPIRE, 3) {
      KeyCommand(now, order, s, cmd, EXPIRE, cmd[1], Expire(n, 1000));
    } else if Called(cmd, PEXPIRE, 3) {
      KeyCommand(now, order, s, cmd, PEXPIRE, cmd[1], Expire(n, 1));
    } else {
      KeyCommand(now, order, s, cmd, PEXPIREAT, cmd[1], ExpireAt(n));
    }
  }

  /** PERSIST: 1 exactly when there is a deadline, which is then gone. */
  lemma PersistReply(now: int, order: seq<Bytes>, s: Store, cmd: Command)
    requires WellFormed(s) && Called(cmd, PERSIST, 2)
    ensures var out, k := Perform(now, order, s, cmd), cmd[1];
            if Alive(s, now, k) && k in s.ttl then
              out.reply == ":1\r\n" && OnlyAt(s, k, out.store) && At(out.store, k) == Cell(Some(s.db[k]), None)
            else out.reply == ":0\r\n" && Kept(s, now, k, out.store)
  {
    hide Perform, Kept, OnlyAt, ToString, Spelled, NameOf;
    IntegerLiterals();
    KeyCommand(now, order, s, cmd, PERSIST, cmd[1], Persist);
  }

  /** n is the time left: in milliseconds, or in seconds to the nearest one. */
  predicate Left(ms: int, n: int, seconds: bool) {
    if seconds then 1000 * n - 500 <= ms < 1000 * n + 500 else n == ms
  }

  /** TTL and PTTL: -2 exactly without a key, -1 exactly without a deadline, else the time left. */
  lemma TtlReplies(now: int, order: seq<Bytes>, s: Store, cmd: Command)
    requires WellFormed(s) && (Called(cmd, TTL, 2) || Called(cmd, PTTL, 2))
    ensures var out, k := Perform(now, order, s, cmd), cmd[1];
            && Kept(s, now, k, out.store)
            && (out.reply == ":-2\r\n" <==> !Alive(s, now, k))
            && (out.reply == ":-1\r\n" <==> Alive(s, now, k) && k !in s.ttl)
            && (Alive(s, now, k) && k in s.ttl ==>
                  exists n :: out.reply == NumberReply(n) && Left(s.ttl[k] - now, n, Called(cmd, TTL, 2)))
  {
    hide Perform, Kept, OnlyAt, ToString, Spelled, NameOf, Integer, NumberReply;
    var k, seconds := cmd[1], Called(cmd, TTL, 2);
    KeyCommand(now, order, s, cmd, if seconds then TTL else PTTL, k, Ttl(seconds));
    NumberBytes(-2);
    NumberBytes(-1);
    if Alive(s, now, k) && k in s.ttl {
      var left := s.ttl[k] - now;
      var n := if seconds then (left + 500) / 1000 else left;
      NumberBytes(n);
      assert Left(left, n, seconds);
    }
  }

  // ---- lists ---------------------------------------------------------------

  /** The list a key stands for: empty if there is no key. */
  function ListAt(s: Store, now: int, k: Bytes): seq<Bytes> {
    if Alive(s, now, k) && s.db[k].List? then s.db[k].items else []
  }

  predicate StringThere(s: Store, now: int, k: Bytes) {
    Alive(s, now, k) && s.db[k].Str?
  }

  /** RPUSH adds the values at the end, in order; LPUSH puts them at the front one after the other. */
  predicate PushedOn(before: seq<Bytes>, values: seq<Bytes>, left: bool, after: seq<Bytes>) {
    var n, m := |values|, |before|;
    && |after| == m + n
    && (!left ==> after[..m] == before && after[m..] == values)
    && (left ==> after[n..] == before && forall i :: 0 <= i < n ==> after[i] == values[n - 1 - i])
  }

  lemma {:induction false} ReversedAt(values: seq<Bytes>, i: nat)
    requires i < |values|
    ensures Reverse(values)[i] == values[|values| - 1 - i]
  {
    if i < |values| - 1 {
      ReversedAt(values[1..], i);
    }
  }

  lemma PushedMeans(before: seq<Bytes>, values: seq<Bytes>, left: bool)
    ensures PushedOn(before, values, left, Pushed(before, values, left))
  {
    forall i | 0 <= i < |values|
      ensures Reverse(values)[i] == values[|values| - 1 - i]
    {
      ReversedAt(values, i);
    }
  }

  /** LPUSH and RPUSH: the type error for a string, else the values are on the list and the new length is answered. */
  lemma PushReply(now: int, order: seq<Bytes>, s: Store, cmd: Command, left: bool)
    requires WellFormed(s) && |cmd| >= 3 && Called(cmd, if left then LPUSH else RPUSH, |cmd|)
    ensures var out, k := Perform(now, order, s, cmd), cmd[1];
            if StringThere(s, now, k) then out.reply == TYPE_ERROR && Kept(s, now, k, out.store)
            else
              && OnlyAt(s, k, out.store) && HoldsList(At(out.store, k).value)
              && PushedOn(ListAt(s, now, k), cmd[2..], left, ItemsOf(At(out.store, k).value))
              && out.reply == NumberReply(|ListAt(s, now, k)| + |cmd| - 2)
              && At(out.store, k).deadline == if Alive(s, now, k) then Lookup(s.ttl, k) else None
  {
    hide Perform, Kept, OnlyAt, ToString, Spelled, NameOf, Reverse;
    ErrorBytes();
    KeyCommand(now, order, s, cmd, if left then LPUSH else RPUSH, cmd[1], Push(cmd[2..], left));
    PushedMeans(ListAt(s, now, cmd[1]), cmd[2..], left);
  }

  /** LPOP and RPOP: the first or last value and the list without it, the key gone with its last value. */
  lemma PopReply(now: int, order: seq<Bytes>, s: Store, cmd: Command, left: bool)
    requires WellFormed(s) && Called(cmd, if left then LPOP else RPOP, 2)
    ensures var out, k := Perform(now, order, s, cmd), cmd[1];
            if StringThere(s, now, k) then out.reply == TYPE_ERROR && Kept(s, now, k, out.store)
            else if !Alive(s, now, k) then out.reply == NULL_REPLY && Kept(s, now, k, out.store)
            else
              var v, rest := Popped(ListAt(s, now, k), left), ItemsOf(At(out.store, k).value);
              && ListAt(s, now, k) == (if left then [v] + rest else rest + [v])
              && out.reply == BulkReply(v) && OnlyAt(s, k, out.store)
              && At(out.store, k) == if rest == [] then GONE else Cell(Some(List(rest)), Lookup(s.ttl, k))
  {
    hide Perform, Kept, OnlyAt, ToString, Spelled, NameOf;
    ErrorBytes();
    KeyCommand(now, order, s, cmd, if left then LPOP else RPOP, cmd[1], Pop(left));
    AliveList(s, now, cmd[1]);
    var items := ListAt(s, now, cmd[1]);
    if items != [] {
      assert items == [items[0]] + items[1..] == items[..|items| - 1] + [items[|items| - 1]];
    }
  }

  function Popped(items: seq<Bytes>, left: bool): Bytes {
    if items == [] then [] else if left then items[0] else items[|items| - 1]
  }

  /** A list that is there is not empty. */
  lemma AliveList(s: Store, now: int, k: Bytes)
    requires WellFormed(s)
    ensures Alive(s, now, k) && !StringThere(s, now, k) <==> ListAt(s, now, k) != []
  {
    assert CellOk(At(s, k));
  }

  /** LLEN: the number of elements, 0 without a key. */
  lemma LenReply(now: int, order: seq<Bytes>, s: Store, cmd: Command)
    requires WellFormed(s) && Called(cmd, LLEN, 2)
    ensures var out, k := Perform(now, order, s, cmd), cmd[1];
            && Kept(s, now, k, out.store)
            && out.reply == if StringThere(s, now, k) then TYPE_ERROR else NumberReply(|ListAt(s, now, k)|)
  {
    hide Perform, Kept, OnlyAt, ToString, Spelled, NameOf;
    ErrorBytes();
    KeyCommand(now, order, s, cmd, LLEN, cmd[1], Len);
  }

  /** A position of LRANGE: negative ones count from the tail. */
  function Position(n: nat, i: int): int {
    if i < 0 then n + i else i
  }

  /** LRANGE: the elements whose positions both bounds admit, in order. */
  lemma RangeReply(now: int, order: seq<Bytes>, s: Store, cmd: Command)
    requires WellFormed(s) && Called(cmd, LRANGE, 4) && ParseI64(cmd[2]).Some? && ParseI64(cmd[3]).Some?
    ensures var out, k, items := Perform(now, order, s, cmd), cmd[1], ListAt(s, now, cmd[1]);
            var lo, hi := Position(|items|, ParseI64(cmd[2]).value), Position(|items|, ParseI64(cmd[3]).value);
            && Kept(s, now, k, out.store)
            && out.reply == if StringThere(s, now, k) then TYPE_ERROR else ArrayReply(Db.Between(items, 0, lo, hi))
  {
    hide Perform, Kept, OnlyAt, ToString, Spelled, NameOf, ParseI64;
    ErrorBytes();
    var start, stop := ParseI64(cmd[2]).value, ParseI64(cmd[3]).value;
    KeyCommand(now, order, s, cmd, LRANGE, cmd[1], Range(start, stop));
    var items := ListAt(s, now, cmd[1]);
    Db.SliceMeans(items, start, stop);
    ArrayBytes(Slice(items, start, stop));
  }

  // ---- several keys --------------------------------------------------------

  /** How many of the words name a key that is alive, a key named twice counted twice. */
  function AliveCount(s: Store, now: int, keys: seq<Bytes>): nat {
    if keys == [] then 0 else (if Alive(s, now, keys[0]) then 1 else 0) + AliveCount(s, now, keys[1..])
  }

  lemma TouchKeepsAlive(s: Store, now: int, k: Bytes, j: Bytes)
    requires WellFormed(s)
    ensures Alive(Touch(s, now, k), now, j) <==> Alive(s, now, j)
    ensures WellFormed(Touch(s, now, k))
  {
    FoundMeans(s, now, k);
    WellFormedPut(s, k, Found(s, now, k));
  }

  lemma {:induction false} AliveCountTouched(s: Store, now: int, k: Bytes, keys: seq<Bytes>)
    requires WellFormed(s)
    ensures AliveCount(Touch(s, now, k), now, keys) == AliveCount(s, now, keys)
    decreases |keys|
  {
    if keys != [] {
      TouchKeepsAlive(s, now, k, keys[0]);
      AliveCountTouched(s, now, k, keys[1..]);
    }
  }

  lemma {:induction false} ExistsCounts(now: int, s: Store, keys: seq<Bytes>)
    requires WellFormed(s)
    ensures ExistsLoop(now, s, keys).n == AliveCount(s, now, keys)
    decreases |keys|
  {
    hide Touch, Alive;
    if keys != [] {
      FoundMeans(s, now, keys[0]);
      TouchKeepsAlive(s, now, keys[0], keys[0]);
      ExistsCounts(now, Touch(s, now, keys[0]), keys[1..]);
      AliveCountTouched(s, now, keys[0], keys[1..]);
    }
  }

  /** EXISTS: how many of the named keys are alive. */
  lemma ExistsReply(now: int, order: seq<Bytes>, s: Store, cmd: Command)
    requires WellFormed(s) && |cmd| >= 2 && Called(cmd, EXISTS, |cmd|)
    ensures var out := Perform(now, order, s, cmd);
            out.reply == NumberReply(AliveCount(s, now, cmd[1..])) && SameView(s, now, out.store)
  {
    hide Read, ExistsLoop, Spelled, NameOf, ToString, Purge;
    CalledBy(cmd, EXISTS);
    ExistsCounts(now, s, cmd[1..]);
    ExistsLoopMeans(now, s, cmd[1..]);
    EvictionInvisible(s, now, ExistsLoop(now, s, cmd[1..]).evicted);
  }

  /** The named keys that are alive. */
  ghost function AliveKeys(s: Store, now: int, keys: seq<Bytes>): set<Bytes> {
    set k | k in keys && Alive(s, now, k)
  }

  lemma {:induction false} DelCounts(now: int, s: Store, keys: seq<Bytes>)
    requires WellFormed(s)
    ensures DelLoop(now, s, keys).n == |AliveKeys(s, now, keys)|
    decreases |keys|
  {
    if keys != [] {
      var k := keys[0];
      FoundMeans(s, now, k);
      var t := Put(s, k, GONE);
      WellFormedPut(s, k, GONE);
      DelCounts(now, t, keys[1..]);
      DelCountsNext(now, s, keys);
    }
  }

  lemma DelCountsNext(now: int, s: Store, keys: seq<Bytes>)
    requires keys != []
    ensures var k := keys[0];
            |AliveKeys(s, now, keys)| ==
            |AliveKeys(Put(s, k, GONE), now, keys[1..])| + if Alive(s, now, k) then 1 else 0
  {
    var k := keys[0];
    var a, b := AliveKeys(s, now, keys), AliveKeys(Put(s, k, GONE), now, keys[1..]);
    assert forall j :: j != k ==> (Alive(Put(s, k, GONE), now, j) <==> Alive(s, now, j));
    assert forall j :: j in keys <==> j == k || j in keys[1..];
    assert k !in b;
    assert a == if Alive(s, now, k) then b + {k} else b;
  }

  /** DEL: how many keys were alive and are now gone; no other key is touched. */
  lemma DelReply(now: int, order: seq<Bytes>, s: Store, cmd: Command)
    requires WellFormed(s) && |cmd| >= 2 && Called(cmd, DEL, |cmd|)
    ensures var out := Perform(now, order, s, cmd);
            && out.reply == NumberReply(|AliveKeys(s, now, cmd[1..])|)
            && forall k :: At(out.store, k) == if k in cmd[1..] then GONE else At(s, k)
  {
    hide Read, DelLoop, Spelled, NameOf, ToString;
    CalledBy(cmd, DEL);
    DelCounts(now, s, cmd[1..]);
    DelLoopMeans(now, s, cmd[1..]);
    forall k
      ensures At(Without(s, Members(cmd[1..])), k) == if k in cmd[1..] then GONE else At(s, k)
    {
      AtWithout(s, Members(cmd[1..]), k);
    }
  }

  /** KEYS: every living key that matches, once, in some order. */
  lemma KeysReply(now: int, order: seq<Bytes>, s: Store, cmd: Command)
    requires WellFormed(s) && Called(cmd, KEYS, 2) && Enumerates(order, s.db.Keys)
    ensures var out := Perform(now, order, s, cmd);
            && SameView(s, now, out.store)
            && exists keys :: out.reply == ArrayReply(keys) && Distinct(keys)
                 && forall k :: k in keys <==> Alive(s, now, k) && GlobMatches(cmd[1], k)
  {
    hide Read, KeysLoop, Filter, GlobMatches, Spelled, NameOf, ToString, ArrayReply;
    CalledBy(cmd, KEYS);
    KeysLive(now, order, s, cmd[1]);
    var r := KeysLoop(now, s, Filter(cmd[1], order));
    EvictionInvisible(s, now, r.evicted);
    ArrayBytes(r.live);
    forall k
      ensures k in r.live <==> Alive(s, now, k) && GlobMatches(cmd[1], k)
    {
      assert k in r.live <==> k in Members(r.live);
    }
  }

  // ---- the whole keyspace, and answers without one -------------------------

  /** DBSIZE counts every entry, also lapsed ones nobody has evicted yet. */
  lemma SizeReply(now: int, order: seq<Bytes>, s: Store, cmd: Command)
    requires WellFormed(s) && Called(cmd, DBSIZE, 1)
    ensures Perform(now, order, s, cmd) == Outcome(s, NumberReply(|s.db|), [])
  {
    hide Read, Spelled, NameOf, ToString, CellStep, DelLoop, ExistsLoop, KeysLoop, Filter;
    CalledBy(cmd, DBSIZE);
  }

  /** FLUSHALL leaves nothing. */
  lemma FlushReply(now: int, order: seq<Bytes>, s: Store, cmd: Command)
    requires WellFormed(s) && Called(cmd, FLUSHALL, 1)
    ensures Perform(now, order, s, cmd) == Outcome(EMPTY, OK_REPLY, [])
  {
    hide Read, Spelled, NameOf;
    CalledBy(cmd, FLUSHALL);
    FlushAllEmpties(now, order, s);
  }

  lemma PingReply(now: int, order: seq<Bytes>, s: Store, cmd: Command)
    requires WellFormed(s) && Called(cmd, PING, 1)
    ensures Perform(now, order, s, cmd) == Outcome(s, "+PONG\r\n", [])
  {
    hide Read, Spelled, NameOf;
    CalledBy(cmd, PING);
  }

  /** SHUTDOWN, in any spelling and with any arguments, and nothing else, stops the server; it is answered OK. */
  lemma StopReply(now: int, order: seq<Bytes>, s: Store, cmd: Command)
    requires WellFormed(s)
    ensures Read(cmd).Stop? <==> cmd != [] && Spelled(cmd[0], "SHUTDOWN")
    ensures Read(cmd).Stop? ==> Perform(now, order, s, cmd) == Outcome(s, OK_REPLY, [])
  {
    hide VerbOf, OpOf;
    if cmd != [] {
      SpelledUpper(cmd[0], "SHUTDOWN");
    }
  }

  /** PING with a word, and ECHO, answer the word. */
  lemma EchoReply(now: int, order: seq<Bytes>, s: Store, cmd: Command)
    requires WellFormed(s) && (Called(cmd, PING, 2) || Called(cmd, ECHO, 2))
    ensures Perform(now, order, s, cmd) == Outcome(s, BulkReply(cmd[1]), [])
  {
    hide Read, Spelled, NameOf, ToString;
    CalledBy(cmd, if Called(cmd, PING, 2) then PING else ECHO);
  }

  /** How many words a command may have. */
  predicate Takes(verb: Verb, n: nat) {
    match verb
    case PING => n == 1 || n == 2
    case ECHO => n == 2
    case SET => n >= 3
    case GET => n == 2
    case DEL => n >= 2
    case EXISTS => n >= 2
    case EXPIRE => n == 3
    case PEXPIRE => n == 3
    case TTL => n == 2
    case PEXPIREAT => n == 3
    case PTTL => n == 2
    case PERSIST => n == 2
    case INCR => n == 2
    case DECR => n == 2
    case INCRBY => n == 3
    case TYPE => n == 2
    case FLUSHALL => n == 1
    case DBSIZE => n == 1
    case KEYS => n == 2
    case CONFIG => true
    case COMMAND => true
    case LPUSH => n >= 3
    case RPUSH => n >= 3
    case LPOP => n == 2
    case RPOP => n == 2
    case LRANGE => n == 4
    case LLEN => n == 2
  }

  /** The wrong number of words is answered with an error, and nothing happens. */
  lemma ArityReply(now: int, order: seq<Bytes>, s: Store, cmd: Command, verb: Verb)
    requires WellFormed(s) && Called(cmd, verb, |cmd|) && !Takes(verb, |cmd|)
    ensures var out := Perform(now, order, s, cmd);
            out.store == s && out.evicted == [] && out.reply != [] && out.reply[0] == '-'
  {
    hide Read, Spelled, NameOf, OpOf, Takes;
    CalledBy(cmd, verb);
    ArityOp(cmd, verb);
  }

  lemma ArityOp(cmd: Command, verb: Verb)
    requires cmd != [] && !Takes(verb, |cmd|)
    ensures var op := OpOf(verb, cmd); op.Answer? && op.reply != [] && op.reply[0] == '-'
  {
    hide ParseI64, ScanSetOptions, WrongArity;
    forall name
      ensures WrongArity(name) != [] && WrongArity(name)[0] == '-'
    {
      ArityError(name);
    }
  }

  lemma ArityError(name: Bytes)
    ensures WrongArity(name) != [] && WrongArity(name)[0] == '-'
  {
  }

  /** A word that is no command's name is answered with an error, and nothing happens. */
  lemma UnknownReply(now: int, order: seq<Bytes>, s: Store, cmd: Command)
    requires WellFormed(s) && cmd != [] && !Spelled(cmd[0], "SHUTDOWN")
    requires forall verb :: !Spelled(cmd[0], NameOf(verb))
    ensures Perform(now, order, s, cmd) == Outcome(s, "-" + ("ERR unknown command '" + cmd[0] + "'") + "\r\n", [])
  {
    hide Spelled, NameOf, Capitals;
    var name := Upper(cmd[0]);
    if VerbOf(name).Some? {
      var verb := VerbOf(name).value;
      NamesAreAll(name);
      NamesDispatch(verb);
      SpelledUpper(cmd[0], NameOf(verb));
    }
    assert Capitals("SHUTDOWN") by {
      ShutdownName();
    }
    SpelledUpper(cmd[0], "SHUTDOWN");
  }

  lemma ShutdownName()
    ensures Capitals("SHUTDOWN")
  {
  }

  lemma NamesAreAll(name: Bytes)
    requires VerbOf(name).Some?
    ensures NameOf(VerbOf(name).value) == name
  {
    match VerbOf(name).value {
      case PING => assert name == "PING";
      case ECHO => assert name == "ECHO";
      case SET => assert name == "SET";
      case GET => assert name == "GET";
      case DEL => assert name == "DEL";
      case EXISTS => assert name == "EXISTS";
      case EXPIRE => assert name == "EXPIRE";
      case PEXPIRE => assert name == "PEXPIRE";
      case TTL => assert name == "TTL";
      case PEXPIREAT => assert name == "PEXPIREAT";
      case PTTL => assert name == "PTTL";
      case PERSIST => assert name == "PERSIST";
      case INCR => assert name == "INCR";
      case _ =>
    }
  }
}
