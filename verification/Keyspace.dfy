/**
 The keyspace as values: the key-to-value map and the key-to-deadline map. What
 both say about one key is a `Cell`; an absent key is the cell `GONE`.
 */
module Keyspace {
  import opened Base

  datatype Value = Str(s: Bytes) | List(items: seq<Bytes>)

  datatype Cell = Cell(value: Option<Value>, deadline: Option<int>)

  const GONE: Cell := Cell(None, None)

  datatype Store = Store(db: map<Bytes, Value>, ttl: map<Bytes, int>)

  const EMPTY: Store := Store(map[], map[])

  function Lookup<T>(m: map<Bytes, T>, k: Bytes): Option<T> {
    if k in m then Some(m[k]) else None
  }

  function Replace<T>(m: map<Bytes, T>, k: Bytes, v: Option<T>): map<Bytes, T> {
    if v.Some? then m[k := v.value] else m - {k}
  }

  function At(s: Store, k: Bytes): Cell {
    Cell(Lookup(s.db, k), Lookup(s.ttl, k))
  }

  function Put(s: Store, k: Bytes, c: Cell): Store {
    Store(Replace(s.db, k, c.value), Replace(s.ttl, k, c.deadline))
  }

  lemma AtPut(s: Store, k: Bytes, c: Cell, j: Bytes)
    ensures At(Put(s, k, c), j) == if j == k then c else At(s, j)
  {
  }

  lemma PutPut(s: Store, k: Bytes, c: Cell, d: Cell)
    ensures Put(Put(s, k, c), k, d) == Put(s, k, d)
  {
  }

  lemma PutSame(s: Store, k: Bytes)
    ensures Put(s, k, At(s, k)) == s
  {
  }

  /** Stores that agree on every key are equal. */
  lemma SameCells(a: Store, b: Store)
    ensures (forall k :: At(a, k) == At(b, k)) ==> a == b
  {
    if forall k :: At(a, k) == At(b, k) {
      assert forall k :: k in a.db <==> At(a, k).value.Some?;
      assert forall k :: k in b.db <==> At(b, k).value.Some?;
      assert forall k :: k in a.ttl <==> At(a, k).deadline.Some?;
      assert forall k :: k in b.ttl <==> At(b, k).deadline.Some?;
      assert forall k :: k in a.db ==> a.db[k] == At(a, k).value.value && b.db[k] == At(b, k).value.value;
      assert forall k :: k in a.ttl ==> a.ttl[k] == At(a, k).deadline.value && b.ttl[k] == At(b, k).deadline.value;
      assert a.db == b.db && a.ttl == b.ttl;
    }
  }

  // ---- the keyspace invariant ----------------------------------------------

  /** A deadline only on a key that exists, and no empty list. */
  predicate CellOk(c: Cell) {
    && (c.deadline.Some? ==> c.value.Some?)
    && (c.value.Some? && c.value.value.List? ==> c.value.value.items != [])
  }

  ghost predicate WellFormed(s: Store) {
    forall k :: CellOk(At(s, k))
  }

  /** In terms of the two maps. */
  lemma WellFormedMeans(s: Store)
    ensures WellFormed(s) <==>
            && s.ttl.Keys <= s.db.Keys
            && forall k :: k in s.db && s.db[k].List? ==> s.db[k].items != []
  {
    if WellFormed(s) {
      assert forall k :: k in s.ttl ==> CellOk(At(s, k));
      assert forall k :: k in s.db ==> CellOk(At(s, k));
    }
  }

  lemma WellFormedPut(s: Store, k: Bytes, c: Cell)
    requires WellFormed(s) && CellOk(c)
    ensures WellFormed(Put(s, k, c))
  {
    forall j
      ensures CellOk(At(Put(s, k, c), j))
    {
      AtPut(s, k, c, j);
    }
  }

  // ---- expiry --------------------------------------------------------------

  predicate Lapsed(c: Cell, now: int) {
    c.deadline.Some? && c.deadline.value <= now
  }

  /** A cell as seen at clock `now`. */
  function Lapse(c: Cell, now: int): Cell {
    if Lapsed(c, now) then GONE else c
  }

  predicate KeyLapsed(s: Store, now: int, k: Bytes) {
    k in s.ttl && s.ttl[k] <= now
  }

  /** The unexpired view of a store at clock `now`. */
  function Purge(s: Store, now: int): Store {
    Store(map k | k in s.db && !KeyLapsed(s, now, k) :: s.db[k],
          map k | k in s.ttl && !KeyLapsed(s, now, k) :: s.ttl[k])
  }

  lemma AtPurge(s: Store, now: int, k: Bytes)
    ensures At(Purge(s, now), k) == Lapse(At(s, k), now)
  {
  }

  lemma PurgePut(s: Store, k: Bytes, c: Cell, now: int)
    ensures Purge(Put(s, k, c), now) == Put(Purge(s, now), k, Lapse(c, now))
  {
    var a, b := Purge(Put(s, k, c), now), Put(Purge(s, now), k, Lapse(c, now));
    forall j
      ensures At(a, j) == At(b, j)
    {
      AtPurge(Put(s, k, c), now, j);
      AtPut(s, k, c, j);
      AtPut(Purge(s, now), k, Lapse(c, now), j);
      AtPurge(s, now, j);
    }
    SameCells(a, b);
  }

  /** Seeing a store at one clock and then at a later one is seeing it at the later one. */
  lemma PurgeLater(s: Store, now: int, later: int)
    requires now <= later
    ensures Purge(Purge(s, now), later) == Purge(s, later)
  {
  }

  lemma PurgeWellFormed(s: Store, now: int)
    requires WellFormed(s)
    ensures WellFormed(Purge(s, now))
  {
    forall k
      ensures CellOk(At(Purge(s, now), k))
    {
      AtPurge(s, now, k);
    }
  }

  /** Every armed deadline lies in the future of `now`. */
  ghost predicate AllAlive(s: Store, now: int) {
    forall k :: !Lapsed(At(s, k), now)
  }

  lemma PurgeOfAlive(s: Store, now: int)
    requires AllAlive(s, now)
    ensures Purge(s, now) == s
  {
    forall k
      ensures At(Purge(s, now), k) == At(s, k)
    {
      AtPurge(s, now, k);
    }
    SameCells(Purge(s, now), s);
  }

  lemma PurgeIsAlive(s: Store, now: int)
    ensures AllAlive(Purge(s, now), now)
  {
  }

  // ---- removing several keys -----------------------------------------------

  function Without(s: Store, keys: set<Bytes>): Store {
    Store(s.db - keys, s.ttl - keys)
  }

  lemma AtWithout(s: Store, keys: set<Bytes>, k: Bytes)
    ensures At(Without(s, keys), k) == if k in keys then GONE else At(s, k)
  {
  }

  lemma WithoutWellFormed(s: Store, keys: set<Bytes>)
    requires WellFormed(s)
    ensures WellFormed(Without(s, keys))
  {
    forall k
      ensures CellOk(At(Without(s, keys), k))
    {
      AtWithout(s, keys, k);
      assert CellOk(At(s, k));
    }
  }

  lemma PurgeWithout(s: Store, keys: set<Bytes>, now: int)
    ensures Purge(Without(s, keys), now) == Without(Purge(s, now), keys)
  {
  }

  /** Removing keys that have lapsed does not change the unexpired view. */
  lemma PurgeAbsorbs(s: Store, keys: set<Bytes>, now: int)
    requires forall k :: k in keys ==> Lapsed(At(s, k), now) || At(s, k) == GONE
    ensures Purge(Without(s, keys), now) == Purge(s, now)
  {
  }
}
