/**
 Laws of the command semantics that hold in every state: the keyspace invariant,
 what the multi-key loops amount to, and that the timing of evictions cannot be
 observed.
 */
module Laws {
  import opened Base
  import opened RespWriter
  import opened Keyspace
  import opened Commands

  function Members(keys: seq<Bytes>): set<Bytes> {
    set k | k in keys
  }

  lemma MembersCons(keys: seq<Bytes>)
    requires keys != []
    ensures Members(keys) == {keys[0]} + Members(keys[1..])
  {
  }

  lemma MembersAppend(a: seq<Bytes>, b: seq<Bytes>)
    ensures Members(a + b) == Members(a) + Members(b)
  {
  }

  /** The keys of a list that have lapsed. */
  ghost function LapsedIn(s: Store, now: int, keys: seq<Bytes>): set<Bytes> {
    set k | k in keys && Lapsed(At(s, k), now)
  }

  lemma PutGone(s: Store, k: Bytes)
    ensures Put(s, k, GONE) == Without(s, {k})
  {
  }

  lemma WithoutTwice(s: Store, a: set<Bytes>, b: set<Bytes>)
    ensures Without(Without(s, a), b) == Without(s, a + b)
  {
  }

  lemma WithoutNone(s: Store)
    ensures Without(s, {}) == s
  {
  }

  /** Seeing one key through the gate removes it exactly when it has lapsed. */
  lemma TouchMeans(s: Store, now: int, k: Bytes)
    ensures Touch(s, now, k) == Without(s, Members(EvictedAt(s, now, k)))
  {
  }

  /** Whether a key is listed or not, one touch removes what it evicts. */
  lemma LapsedInCons(s: Store, now: int, keys: seq<Bytes>)
    requires keys != []
    ensures LapsedIn(s, now, keys)
         == Members(EvictedAt(s, now, keys[0])) + LapsedIn(Touch(s, now, keys[0]), now, keys[1..])
  {
  }

  // ---- what the loops amount to --------------------------------------------

  /** The evict-hook calls of a loop: each lapsed key once. */
  ghost predicate EvictsOnce(s: Store, now: int, evicted: seq<Bytes>) {
    Distinct(evicted) && forall k :: k in evicted ==> Lapsed(At(s, k), now)
  }

  lemma EvictsOnceCons(s: Store, now: int, k: Bytes, c: Cell, more: seq<Bytes>)
    requires !Lapsed(c, now) && EvictsOnce(Put(s, k, c), now, more)
    ensures EvictsOnce(s, now, EvictedAt(s, now, k) + more)
  {
    forall j | j in more
      ensures j != k && Lapsed(At(s, j), now)
    {
      AtPut(s, k, c, j);
    }
  }

  /** EXISTS evicts the lapsed keys it is asked about and changes nothing else. */
  lemma {:induction false} ExistsLoopMeans(now: int, s: Store, keys: seq<Bytes>)
    ensures var r := ExistsLoop(now, s, keys);
            && r.store == Without(s, Members(r.evicted))
            && Members(r.evicted) == LapsedIn(s, now, keys)
            && EvictsOnce(s, now, r.evicted)
    decreases |keys|
  {
    if keys == [] {
      WithoutNone(s);
    } else {
      var k := keys[0];
      var e := EvictedAt(s, now, k);
      var t := Touch(s, now, k);
      var r := ExistsLoop(now, t, keys[1..]);
      ExistsLoopMeans(now, t, keys[1..]);
      TouchMeans(s, now, k);
      WithoutTwice(s, Members(e), Members(r.evicted));
      MembersAppend(e, r.evicted);
      LapsedInCons(s, now, keys);
      EvictsOnceCons(s, now, k, Lapse(At(s, k), now), r.evicted);
    }
  }

  /** KEYS lists the candidates that have not lapsed and evicts the ones that have. */
  lemma {:induction false} KeysLoopMeans(now: int, s: Store, keys: seq<Bytes>)
    requires Distinct(keys)
    ensures var r := KeysLoop(now, s, keys);
            && r.store == Without(s, Members(r.evicted))
            && Members(r.evicted) == LapsedIn(s, now, keys)
            && EvictsOnce(s, now, r.evicted)
            && Distinct(r.live)
            && Members(r.live) == Members(keys) - LapsedIn(s, now, keys)
    decreases |keys|
  {
    if keys == [] {
      WithoutNone(s);
    } else {
      var k := keys[0];
      var e := EvictedAt(s, now, k);
      var t := Touch(s, now, k);
      var r := KeysLoop(now, t, keys[1..]);
      KeysLoopMeans(now, t, keys[1..]);
      TouchMeans(s, now, k);
      WithoutTwice(s, Members(e), Members(r.evicted));
      MembersAppend(e, r.evicted);
      LapsedInCons(s, now, keys);
      EvictsOnceCons(s, now, k, Lapse(At(s, k), now), r.evicted);
      MembersCons(keys);
      assert keys == [k] + keys[1..];
      DistinctCons(k, keys[1..]);
      assert k !in Members(keys[1..]);
      KeysLiveCons(s, now, keys, r.live);
    }
  }

  lemma KeysLiveCons(s: Store, now: int, keys: seq<Bytes>, live: seq<Bytes>)
    requires keys != [] && keys[0] !in Members(keys[1..])
    requires Distinct(live)
    requires Members(live) == Members(keys[1..]) - LapsedIn(Touch(s, now, keys[0]), now, keys[1..])
    ensures var all := if Lapsed(At(s, keys[0]), now) then live else [keys[0]] + live;
            Distinct(all) && Members(all) == Members(keys) - LapsedIn(s, now, keys)
  {
    var k := keys[0];
    MembersCons(keys);
    MembersAppend([k], live);
    LapsedInCons(s, now, keys);
    assert k !in live by {
      assert k !in Members(live);
    }
    DistinctCons(k, live);
  }

  /** DEL removes every listed key; it counts nothing exactly when none was alive. */
  lemma {:induction false} DelLoopMeans(now: int, s: Store, keys: seq<Bytes>)
    requires WellFormed(s)
    ensures var r := DelLoop(now, s, keys);
            && r.store == Without(s, Members(keys))
            && EvictsOnce(s, now, r.evicted)
            && Members(r.evicted) <= Members(keys)
            && (r.n == 0 <==> forall k :: k in keys ==> Lapse(At(s, k), now).value.None?)
            && (r.n == 0 ==> Members(r.evicted) == LapsedIn(s, now, keys))
    decreases |keys|
  {
    if keys == [] {
      WithoutNone(s);
    } else {
      var k := keys[0];
      assert CellOk(At(s, k));
      var t := Put(s, k, GONE);
      WellFormedPut(s, k, GONE);
      var r := DelLoop(now, t, keys[1..]);
      DelLoopMeans(now, t, keys[1..]);
      PutGone(s, k);
      WithoutTwice(s, {k}, Members(keys[1..]));
      MembersCons(keys);
      MembersAppend(EvictedAt(s, now, k), r.evicted);
      EvictsOnceCons(s, now, k, GONE, r.evicted);
      forall j
        ensures At(t, j) == if j == k then GONE else At(s, j)
      {
        AtPut(s, k, GONE, j);
      }
      assert keys == [k] + keys[1..];
      if DelLoop(now, s, keys).n == 0 {
        assert t == Touch(s, now, k);
        LapsedInCons(s, now, keys);
      }
    }
  }

  lemma {:induction false} FilterMeans(pattern: Bytes, order: seq<Bytes>)
    ensures Members(Filter(pattern, order)) == set k | k in order && GlobMatches(pattern, k)
    ensures Distinct(order) ==> Distinct(Filter(pattern, order))
  {
    hide GlobMatches;
    if order != [] {
      var k, f := order[0], Filter(pattern, order[1..]);
      FilterMeans(pattern, order[1..]);
      assert order == [k] + order[1..];
      DistinctCons(k, order[1..]);
      MembersAppend([k], f);
      assert [] + f == f;
      assert k in f ==> k in Members(f);
      DistinctCons(k, f);
    }
  }

  // ---- the keyspace invariant ----------------------------------------------

  /** After FLUSHALL nothing is left, in particular no TTL. */
  lemma FlushAllEmpties(now: int, order: seq<Bytes>, s: Store)
    requires WellFormed(s)
    ensures Apply(now, order, s, FlushAll).store == EMPTY
  {
    WellFormedMeans(s);
    assert s.ttl - s.db.Keys == map[];
  }

  /** Every operation keeps: a TTL only on an existing key, and no empty list. */
  lemma ApplyWellFormed(now: int, order: seq<Bytes>, s: Store, op: Op)
    requires WellFormed(s)
    requires Distinct(order)
    ensures WellFormed(Apply(now, order, s, op).store)
  {
    match op {
      case Answer(_) =>
      case DbSize =>
      case Keyed(k, kop) =>
        assert CellOk(At(s, k));
        var (c, _) := CellStep(now, Lapse(At(s, k), now), kop);
        WellFormedPut(s, k, c);
      case Del(keys) =>
        DelLoopMeans(now, s, keys);
        WithoutWellFormed(s, Members(keys));
      case Exists(keys) =>
        ExistsLoopMeans(now, s, keys);
        WithoutWellFormed(s, Members(ExistsLoop(now, s, keys).evicted));
      case Keys(pattern) =>
        FilterMeans(pattern, order);
        KeysLoopMeans(now, s, Filter(pattern, order));
        WithoutWellFormed(s, Members(KeysLoop(now, s, Filter(pattern, order)).evicted));
      case FlushAll =>
        FlushAllEmpties(now, order, s);
    }
  }

  /** What an operation evicts has lapsed, and is evicted once. */
  lemma ApplyEvicts(now: int, order: seq<Bytes>, s: Store, op: Op)
    requires WellFormed(s)
    requires Distinct(order)
    ensures EvictsOnce(s, now, Apply(now, order, s, op).evicted)
  {
    match op {
      case Answer(_) =>
      case DbSize =>
      case FlushAll =>
      case Keyed(k, kop) =>
      case Del(keys) =>
        DelLoopMeans(now, s, keys);
      case Exists(keys) =>
        ExistsLoopMeans(now, s, keys);
      case Keys(pattern) =>
        FilterMeans(pattern, order);
        KeysLoopMeans(now, s, Filter(pattern, order));
    }
  }

  // ---- expired keys cannot be observed -------------------------------------

  /** KEYS replies list the same keys, possibly in another order; other replies are equal. */
  ghost predicate SameReply(op: Op, a: Bytes, b: Bytes) {
    if op.Keys? then
      exists x, y ::
        && a == Array(Bulks(x)) && b == Array(Bulks(y))
        && Distinct(x) && Distinct(y) && Members(x) == Members(y)
    else a == b
  }

  lemma {:induction false} DelLoopView(now: int, a: Store, b: Store, keys: seq<Bytes>)
    requires WellFormed(a) && WellFormed(b)
    requires Purge(a, now) == Purge(b, now)
    ensures DelLoop(now, a, keys).n == DelLoop(now, b, keys).n
    decreases |keys|
  {
    if keys != [] {
      var k := keys[0];
      AtPurge(a, now, k);
      AtPurge(b, now, k);
      assert CellOk(At(a, k)) && CellOk(At(b, k));
      WellFormedPut(a, k, GONE);
      WellFormedPut(b, k, GONE);
      PurgePut(a, k, GONE, now);
      PurgePut(b, k, GONE, now);
      DelLoopView(now, Put(a, k, GONE), Put(b, k, GONE), keys[1..]);
    }
  }

  lemma {:induction false} ExistsLoopView(now: int, a: Store, b: Store, keys: seq<Bytes>)
    requires Purge(a, now) == Purge(b, now)
    ensures ExistsLoop(now, a, keys).n == ExistsLoop(now, b, keys).n
    decreases |keys|
  {
    if keys != [] {
      var k := keys[0];
      AtPurge(a, now, k);
      AtPurge(b, now, k);
      PurgePut(a, k, Lapse(At(a, k), now), now);
      PurgePut(b, k, Lapse(At(b, k), now), now);
      ExistsLoopView(now, Touch(a, now, k), Touch(b, now, k), keys[1..]);
    }
  }

  lemma KeyedView(now: int, a: Store, b: Store, k: Bytes, op: KeyOp)
    requires WellFormed(a) && WellFormed(b)
    requires Purge(a, now) == Purge(b, now)
    ensures CellOk(At(a, k)) && CellOk(At(b, k))
    ensures var x, y := ApplyKeyed(now, a, k, op), ApplyKeyed(now, b, k, op);
            x.reply == y.reply && Purge(x.store, now) == Purge(y.store, now)
  {
    AtPurge(a, now, k);
    AtPurge(b, now, k);
    assert CellOk(At(a, k)) && CellOk(At(b, k));
    var (c, _) := CellStep(now, Lapse(At(a, k), now), op);
    PurgePut(a, k, c, now);
    PurgePut(b, k, c, now);
  }

  /** The unexpired keys that match a pattern. */
  ghost function LiveMatching(s: Store, now: int, pattern: Bytes): set<Bytes> {
    set k | k in Purge(s, now).db && GlobMatches(pattern, k)
  }

  lemma KeysLive(now: int, order: seq<Bytes>, s: Store, pattern: Bytes)
    requires Enumerates(order, s.db.Keys)
    ensures var r := KeysLoop(now, s, Filter(pattern, order));
            Distinct(r.live) && Members(r.live) == LiveMatching(s, now, pattern)
            && r.store == Without(s, Members(r.evicted)) && EvictsOnce(s, now, r.evicted)
  {
    FilterMeans(pattern, order);
    KeysLoopMeans(now, s, Filter(pattern, order));
    var f := Filter(pattern, order);
    forall k
      ensures k in Members(f) - LapsedIn(s, now, f) <==> k in LiveMatching(s, now, pattern)
    {
      AtPurge(s, now, k);
      assert k in f <==> k in Members(f);
      assert k in s.db <==> k in (set j | j in order);
    }
  }

  /** Evictions of lapsed keys are invisible. */
  lemma EvictionInvisible(s: Store, now: int, evicted: seq<Bytes>)
    requires EvictsOnce(s, now, evicted)
    ensures Purge(Without(s, Members(evicted)), now) == Purge(s, now)
  {
  }

  lemma SameRepliesAreSame(op: Op, r: Bytes)
    ensures !op.Keys? ==> SameReply(op, r, r)
  {
  }

  lemma KeysAlike(now: int, oa: seq<Bytes>, a: Store, ob: seq<Bytes>, b: Store, pattern: Bytes)
    requires Purge(a, now) == Purge(b, now)
    requires Enumerates(oa, a.db.Keys) && Enumerates(ob, b.db.Keys)
    ensures var x, y := KeysLoop(now, a, Filter(pattern, oa)), KeysLoop(now, b, Filter(pattern, ob));
            && SameReply(Keys(pattern), Array(Bulks(x.live)), Array(Bulks(y.live)))
            && Purge(x.store, now) == Purge(y.store, now)
  {
    hide Purge, Array, Bulks, KeysLoop, Filter, GlobMatches, Without;
    KeysLive(now, oa, a, pattern);
    KeysLive(now, ob, b, pattern);
    var x, y := KeysLoop(now, a, Filter(pattern, oa)), KeysLoop(now, b, Filter(pattern, ob));
    EvictionInvisible(a, now, x.evicted);
    EvictionInvisible(b, now, y.evicted);
  }

  /**
   Replies other than DBSIZE, and every next view, depend only on the unexpired view:
   stale keys that no eviction has reached yet cannot be observed.
   */
  lemma EvictionTimingUnobservable(now: int, oa: seq<Bytes>, a: Store, ob: seq<Bytes>, b: Store, op: Op)
    requires WellFormed(a) && WellFormed(b) && Purge(a, now) == Purge(b, now)
    requires Enumerates(oa, a.db.Keys) && Enumerates(ob, b.db.Keys)
    ensures var x, y := Apply(now, oa, a, op), Apply(now, ob, b, op);
            && (!op.DbSize? ==> SameReply(op, x.reply, y.reply))
            && Purge(x.store, now) == Purge(y.store, now)
  {
    hide Purge, Array, Bulks, KeysLoop, Filter, DelLoop, ExistsLoop, CellStep, Without, SameReply;
    SameRepliesAreSame(op, Apply(now, oa, a, op).reply);
    match op {
      case Answer(_) =>
      case DbSize =>
      case Keyed(k, kop) =>
        KeyedView(now, a, b, k, kop);
      case Del(keys) =>
        DelLoopView(now, a, b, keys);
        DelLoopMeans(now, a, keys);
        DelLoopMeans(now, b, keys);
        PurgeWithout(a, Members(keys), now);
        PurgeWithout(b, Members(keys), now);
      case Exists(keys) =>
        ExistsLoopView(now, a, b, keys);
        ExistsLoopMeans(now, a, keys);
        ExistsLoopMeans(now, b, keys);
        EvictionInvisible(a, now, ExistsLoop(now, a, keys).evicted);
        EvictionInvisible(b, now, ExistsLoop(now, b, keys).evicted);
      case Keys(pattern) =>
        KeysAlike(now, oa, a, ob, b, pattern);
      case FlushAll =>
        FlushAllEmpties(now, oa, a);
        FlushAllEmpties(now, ob, b);
    }
  }
}
