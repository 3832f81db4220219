/** The keyspace object: a map from keys to strings or lists, updated in place. */
module Db {
  import opened Base
  import opened Keyspace
  import opened Commands
  import Glob

  datatype Kind = KNone | KString | KList

  class Db {
    var entries: map<Bytes, Value>

    constructor ()
      ensures entries == map[]
    {
      entries := map[];
    }

    function Get(key: Bytes): (v: Option<Bytes>)
      reads this
      ensures v.Some? <==> HoldsString(Lookup(entries, key))
      ensures v.Some? ==> entries[key] == Str(v.value)
    {
      if key in entries && entries[key].Str? then Some(entries[key].s) else None
    }

    function KindOf(key: Bytes): (k: Kind)
      reads this
      ensures k.KNone? <==> key !in entries
      ensures k.KString? <==> HoldsString(Lookup(entries, key))
      ensures k.KList? <==> HoldsList(Lookup(entries, key))
    {
      if key !in entries then KNone else if entries[key].Str? then KString else KList
    }

    predicate Exists(key: Bytes)
      reads this
    {
      key in entries
    }

    method Set(key: Bytes, value: Bytes)
      modifies this
      ensures entries == old(entries)[key := Str(value)]
    {
      entries := entries[key := Str(value)];
    }

    method Del(key: Bytes) returns (had: bool)
      modifies this
      ensures had == (key in old(entries))
      ensures entries == old(entries) - {key}
    {
      had := key in entries;
      entries := entries - {key};
    }

    method Clear()
      modifies this
      ensures entries == map[]
    {
      entries := map[];
    }

    /** The map's iteration order, whatever it is. */
    method IterationOrder() returns (order: seq<Bytes>)
      ensures Enumerates(order, entries.Keys)
    {
      order := [];
      var left := entries.Keys;
      while left != {}
        invariant Distinct(order)
        invariant (set k | k in order) !! left && (set k | k in order) + left == entries.Keys
        decreases left
      {
        var k :| k in left;
        assert k !in order by {
          assert k !in (set j | j in order);
        }
        assert (set j | j in order + [k]) == (set j | j in order) + {k};
        order := order + [k];
        left := left - {k};
      }
    }

    /** The matching keys in the map's iteration order. */
    method KeysMatchingGlob(pattern: Bytes, order: seq<Bytes>) returns (out: seq<Bytes>)
      requires Enumerates(order, entries.Keys)
      ensures out == Filter(pattern, order)
    {
      hide GlobMatches, Filter;
      out := [];
      var i := 0;
      assert order[0..] == order;
      while i < |order|
        invariant 0 <= i <= |order|
        invariant out + Filter(pattern, order[i..]) == Filter(pattern, order)
      {
        var hit := Glob.GlobMatch(pattern, order[i]);
        HitMeans(pattern, order[i], hit);
        FilterNext(pattern, order, i);
        ghost var before := out;
        if hit {
          out := out + [order[i]];
        }
        AppendAssoc(before, if hit then [order[i]] else [], Filter(pattern, order[i + 1..]));
        i := i + 1;
      }
      assert order[i..] == [] && out + [] == out;
      FilterNone(pattern);
    }

    static lemma FilterNone(pattern: Bytes)
      ensures Filter(pattern, []) == []
    {
    }

    static lemma FilterNext(pattern: Bytes, order: seq<Bytes>, i: nat)
      requires i < |order|
      ensures Filter(pattern, order[i..])
           == (if GlobMatches(pattern, order[i]) then [order[i]] else []) + Filter(pattern, order[i + 1..])
    {
      assert order[i..][1..] == order[i + 1..];
    }

    static lemma HitMeans(pattern: Bytes, key: Bytes, hit: bool)
      requires hit == Glob.Matches(Glob.Tokens(pattern, 0), key)
      ensures hit == GlobMatches(pattern, key)
    {
    }

    /** Pushes one value; the key must not hold a string. */
    method PushOne(key: Bytes, value: Bytes, left: bool) returns (len: nat)
      requires !HoldsString(Lookup(entries, key))
      modifies this
      ensures var items := ItemsOf(Lookup(old(entries), key));
              var now := if left then [value] + items else items + [value];
              entries == old(entries)[key := List(now)] && len == |now|
    {
      var items := if key in entries then entries[key].items else [];
      items := if left then [value] + items else items + [value];
      entries := entries[key := List(items)];
      len := |items|;
    }

    /** Pops one value from a list, which is never empty; popping the last removes the key. */
    method PopOne(key: Bytes, left: bool) returns (v: Option<Bytes>)
      requires !HoldsString(Lookup(entries, key))
      requires HoldsList(Lookup(entries, key)) ==> entries[key].items != []
      modifies this
      ensures key !in old(entries) ==> v == None && entries == old(entries)
      ensures key in old(entries) ==>
                var items := old(entries)[key].items;
                && v == Some(if left then items[0] else items[|items| - 1])
                && Lookup(entries, key) == (if |items| == 1 then None
                                            else Some(List(if left then items[1..] else items[..|items| - 1])))
                && entries - {key} == old(entries) - {key}
    {
      if key !in entries {
        return None;
      }
      var items := entries[key].items;
      v := Some(if left then items[0] else items[|items| - 1]);
      items := if left then items[1..] else items[..|items| - 1];
      entries := if items == [] then entries - {key} else entries[key := List(items)];
    }

    function Llen(key: Bytes): (n: nat)
      reads this
      requires !HoldsString(Lookup(entries, key))
      ensures n == |ItemsOf(Lookup(entries, key))|
    {
      if key in entries then |entries[key].items| else 0
    }

    method Lrange(key: Bytes, start: int, stop: int) returns (out: seq<Bytes>)
      requires !HoldsString(Lookup(entries, key))
      ensures out == Slice(ItemsOf(Lookup(entries, key)), start, stop)
    {
      if key !in entries {
        return [];
      }
      var list := entries[key].items;
      var n := |list|;
      var lo, hi := start, stop;
      if lo < 0 {
        lo := lo + n;
      }
      if hi < 0 {
        hi := hi + n;
      }
      if lo < 0 {
        lo := 0;
      }
      if hi >= n {
        hi := n - 1;
      }
      assert lo == FirstIndex(n, start) && hi == LastIndex(n, stop);
      if lo > hi || lo >= n {
        return [];
      }
      out := Copy(list, lo, hi);
    }

    static method Copy(list: seq<Bytes>, lo: int, hi: int) returns (out: seq<Bytes>)
      requires 0 <= lo <= hi < |list|
      ensures out == list[lo..hi + 1]
    {
      out := [];
      var i := lo;
      while i <= hi
        invariant lo <= i <= hi + 1
        invariant out == list[lo..i]
      {
        out := out + [list[i]];
        i := i + 1;
      }
    }

    method RestoreEntry(key: Bytes, value: Value)
      modifies this
      ensures entries == old(entries)[key := value]
    {
      entries := entries[key := value];
    }
  }

  /** The elements whose position lies between lo and hi, from position i on. */
  function Between(items: seq<Bytes>, i: nat, lo: int, hi: int): seq<Bytes>
    requires i <= |items|
    decreases |items| - i
  {
    if i == |items| then []
    else (if lo <= i <= hi then [items[i]] else []) + Between(items, i + 1, lo, hi)
  }

  /** LRANGE answers exactly the elements whose position both bounds admit, in order. */
  lemma SliceMeans(items: seq<Bytes>, start: int, stop: int)
    ensures Slice(items, start, stop) == Between(items, 0, FromTail(|items|, start), FromTail(|items|, stop))
  {
    BetweenIsSlice(items, 0, FromTail(|items|, start), FromTail(|items|, stop));
  }

  lemma {:induction false} BetweenIsSlice(items: seq<Bytes>, i: nat, lo: int, hi: int)
    requires i <= |items|
    ensures var end := if hi >= |items| then |items| else hi + 1;
            Between(items, i, lo, hi) == Window(items, if lo < i then i else lo, end)
    decreases |items| - i
  {
    if i < |items| {
      BetweenIsSlice(items, i + 1, lo, hi);
      WindowNext(items, i, if hi >= |items| then |items| else hi + 1);
    }
  }

  function Window(items: seq<Bytes>, a: int, b: int): seq<Bytes> {
    if 0 <= a < b <= |items| then items[a..b] else []
  }

  lemma WindowNext(items: seq<Bytes>, i: nat, b: int)
    requires i < |items| && b <= |items|
    ensures i < b ==> Window(items, i, b) == [items[i]] + Window(items, i + 1, b)
    ensures i >= b ==> Window(items, i, b) == [] == Window(items, i + 1, b)
    ensures forall s: seq<Bytes> :: [] + s == s
  {
  }
}
