/**
 The TTL table: a dense vector of slots, so that a random index is a random key,
 with a key-to-slot index beside it. `Table` is the plain key-to-deadline map the
 pair stands for; every operation is specified on that map.
 */
module Expiry {
  import opened Base

  datatype Slot = Slot(key: Bytes, atMs: int)

  datatype Stats = Stats(sampled: nat, expired: nat, rounds: nat)

  const SAMPLE_PER_ROUND: nat := 20
  const CONTINUE_THRESHOLD: real := 0.25

  /** Index and slots are mutually inverse. */
  ghost predicate Consistent(slots: seq<Slot>, index: map<Bytes, nat>) {
    && (forall k :: k in index ==> index[k] < |slots| && slots[index[k]].key == k)
    && (forall i :: 0 <= i < |slots| ==> slots[i].key in index && index[slots[i].key] == i)
  }

  ghost function TableOf(slots: seq<Slot>, index: map<Bytes, nat>): (m: map<Bytes, int>)
    requires Consistent(slots, index)
    ensures m.Keys == index.Keys
  {
    map k | k in index :: slots[index[k]].atMs
  }

  /** Consistency makes the slots' keys distinct and as many as the table's keys. */
  lemma {:induction false} SlotsAreKeys(slots: seq<Slot>, index: map<Bytes, nat>)
    requires Consistent(slots, index)
    ensures |slots| == |index|
    ensures forall i, j :: 0 <= i < j < |slots| ==> slots[i].key != slots[j].key
    decreases |slots|
  {
    if slots == [] {
      assert index.Keys == {} by {
        if k :| k in index {
          assert false;
        }
      }
    } else {
      var last := |slots| - 1;
      var key := slots[last].key;
      assert Consistent(slots[..last], index - {key});
      SlotsAreKeys(slots[..last], index - {key});
      assert (index - {key}).Keys == index.Keys - {key};
    }
  }

  lemma SlotInTable(slots: seq<Slot>, index: map<Bytes, nat>, i: nat)
    requires Consistent(slots, index) && i < |slots|
    ensures slots[i].key in TableOf(slots, index) && TableOf(slots, index)[slots[i].key] == slots[i].atMs
    ensures slots[i].key in index && index[slots[i].key] == i
  {
  }

  lemma InSlots(slots: seq<Slot>, index: map<Bytes, nat>, key: Bytes)
    requires Consistent(slots, index) && key in index
    ensures index[key] < |slots|
  {
  }

  /** Arming keeps the pair consistent: in place for a tracked key, else as a new last slot. */
  lemma ArmedConsistent(slots: seq<Slot>, index: map<Bytes, nat>, key: Bytes, atMs: int)
    requires Consistent(slots, index)
    ensures key in index ==>
              var s := slots[index[key] := Slot(key, atMs)];
              Consistent(s, index) && TableOf(s, index) == TableOf(slots, index)[key := atMs]
    ensures key !in index ==>
              var s, i := slots + [Slot(key, atMs)], index[key := |slots|];
              Consistent(s, i) && TableOf(s, i) == TableOf(slots, index)[key := atMs]
  {
  }

  /** The slots after slot `at` has been overwritten with the last one and the last one dropped. */
  function SwapOut(slots: seq<Slot>, at: nat): (r: seq<Slot>)
    requires at < |slots|
    ensures |r| == |slots| - 1
  {
    slots[at := slots[|slots| - 1]][..|slots| - 1]
  }

  /** Swap-with-last removal, as a function of the two structures. */
  ghost function Removed(slots: seq<Slot>, index: map<Bytes, nat>, key: Bytes): (r: (seq<Slot>, map<Bytes, nat>))
    requires Consistent(slots, index) && key in index
  {
    var at, last := index[key], |slots| - 1;
    (SwapOut(slots, at), if at == last then index - {key} else index[slots[last].key := at] - {key})
  }

  /** Removal keeps the pair consistent, whichever slot the key was in. */
  lemma RemovedConsistent(slots: seq<Slot>, index: map<Bytes, nat>, key: Bytes)
    requires Consistent(slots, index) && key in index
    ensures var (s, i) := Removed(slots, index, key);
            Consistent(s, i) && TableOf(s, i) == TableOf(slots, index) - {key} && |s| == |slots| - 1
  {
    var (s, i) := Removed(slots, index, key);
    var at, last := index[key], |slots| - 1;
    assert slots[at].key == key;
    assert forall n :: 0 <= n < |s| ==> s[n] == if n == at then slots[last] else slots[n];
    assert Consistent(s, i);
    var t := TableOf(slots, index) - {key};
    assert TableOf(s, i).Keys == t.Keys;
    assert forall k :: k in t ==> TableOf(s, i)[k] == t[k];
  }

  class ExpiryManager {
    var slots: seq<Slot>
    var index: map<Bytes, nat>

    ghost predicate Valid()
      reads this
    {
      Consistent(slots, index)
    }

    ghost function Table(): map<Bytes, int>
      requires Valid()
      reads this
    {
      TableOf(slots, index)
    }

    constructor ()
      ensures Valid() && Table() == map[]
    {
      slots, index := [], map[];
    }

    /** Drops a key's bookkeeping; says whether it had any. */
    method Untrack(key: Bytes) returns (had: bool)
      requires Valid()
      modifies this
      ensures Valid()
      ensures had == (key in old(Table()))
      ensures Table() == old(Table()) - {key}
      ensures slots == if had then SwapOut(old(slots), old(index)[key]) else old(slots)
    {
      if key !in index {
        assert Table() == Table() - {key};
        return false;
      }
      RemovedConsistent(slots, index, key);
      var slot, last := index[key], |slots| - 1;
      if slot != last {
        slots := slots[slot := slots[last]];
        index := index[slots[slot].key := slot];
      }
      slots := slots[..last];
      index := index - {key};
      had := true;
    }

    method SetExpiry(key: Bytes, atMs: int)
      requires Valid()
      modifies this
      ensures Valid()
      ensures Table() == old(Table())[key := atMs]
    {
      hide Consistent, TableOf;
      ArmedConsistent(slots, index, key, atMs);
      if key in index {
        InSlots(slots, index, key);
        slots := slots[index[key] := Slot(key, atMs)];
      } else {
        slots := slots + [Slot(key, atMs)];
        index := index[key := |slots| - 1];
      }
    }

    method Persist(key: Bytes)
      requires Valid()
      modifies this
      ensures Valid()
      ensures Table() == old(Table()) - {key}
    {
      var _ := Untrack(key);
    }

    function ExpiryAt(key: Bytes): (at: Option<int>)
      requires Valid()
      reads this
      ensures at == if key in Table() then Some(Table()[key]) else None
    {
      if key in index then Some(slots[index[key]].atMs) else None
    }

    /**
     Lazy expiry at clock `now`. The evict hook runs right after `Untrack`; here the
     caller runs it when the result is true.
     */
    method CheckAndExpire(key: Bytes, now: int) returns (expired: bool)
      requires Valid()
      modifies this
      ensures Valid()
      ensures expired == (key in old(Table()) && old(Table())[key] <= now)
      ensures Table() == if expired then old(Table()) - {key} else old(Table())
    {
      if key !in index {
        return false;
      }
      if now < slots[index[key]].atMs {
        return false;
      }
      expired := Untrack(key);
    }

    /**
     One sampling round: it evicts exactly what the picks call for, and picks as often as there
     are slots, up to 20, unless it has emptied the table.
     */
    method SampleRound(rng: Rng, now: int) returns (sampled: nat, evicted: seq<Bytes>, ghost picks: seq<nat>)
      requires Valid() && slots != []
      modifies this, rng
      ensures Valid()
      ensures rng.picks == old(rng.picks) + picks && |picks| == sampled
      ensures CanPick(old(slots), now, picks) && (slots, evicted) == Picked(old(slots), now, picks)
      ensures EvictsExpired(old(Table()), now, evicted)
      ensures Table() == old(Table()) - (set k | k in evicted)
      ensures |slots| == old(|slots|) - |evicted|
      ensures |evicted| <= sampled && 0 < sampled <= SAMPLE_PER_ROUND
      ensures sampled == |old(slots)| || sampled == SAMPLE_PER_ROUND || slots == []
    {
      hide Consistent, TableOf, EvictsExpired, CanPick, Picked;
      sampled, evicted, picks := 0, [], [];
      ghost var before, start := Table(), slots;
      EvictNone(before, now);
      PickNone(start, now);
      var target := if |slots| < SAMPLE_PER_ROUND then |slots| else SAMPLE_PER_ROUND;
      var i := 0;
      while i < target && slots != []
        invariant 0 <= i <= target && sampled == i == |picks|
        invariant Valid() && rng.picks == old(rng.picks) + picks
        invariant CanPick(start, now, picks) && (slots, evicted) == Picked(start, now, picks)
        invariant EvictsExpired(before, now, evicted)
        invariant Table() == before - (set k | k in evicted)
        invariant |slots| == old(|slots|) - |evicted|
        invariant |evicted| <= sampled
        invariant i == 0 ==> slots != []
      {
        var slot := rng.Pick(|slots|);
        PickMore(start, now, picks, slot);
        AppendAssoc(old(rng.picks), picks, [slot]);
        picks := picks + [slot];
        i, sampled := i + 1, sampled + 1;
        if now < slots[slot].atMs {
          continue;
        }
        var key := slots[slot].key;
        SlotInTable(slots, index, slot);
        EvictOne(Table(), now, key);
        EvictMore(before, now, evicted, [key]);
        var _ := Untrack(key);
        evicted := evicted + [key];
      }
    }

    /**
     The active cycle, for any picks and any time budget. `evicted` are the hook calls it makes,
     in order. A table that is not empty is sampled in rounds; a round is followed by another
     exactly when more than a quarter of its picks evicted, there is time and something is left.
     When every deadline has passed and the time is never up, the cycle empties the table.
     */
    method ActiveCycle(rng: Rng, timer: Timer, now: int)
      returns (stats: Stats, evicted: seq<Bytes>, ghost rounds: seq<seq<nat>>)
      requires Valid()
      modifies this, rng, timer
      ensures Valid()
      ensures EvictsExpired(old(Table()), now, evicted)
      ensures Table() == old(Table()) - (set k | k in evicted)
      ensures stats.expired == |evicted| == old(|slots|) - |slots|
      ensures stats.sampled <= 4 * stats.expired + SAMPLE_PER_ROUND
      ensures stats.rounds <= stats.expired + 1
      ensures stats.sampled == |AllPicks(rounds)| && stats.rounds == |rounds|
      ensures rng.picks == old(rng.picks) + AllPicks(rounds)
      ensures Cycled(old(slots), now, rounds, slots, old(timer.tests), timer.tests)
      ensures AllExpired(old(slots), now) && !RanOut(old(timer.tests), timer.tests) ==> slots == []
    {
      hide Consistent, TableOf, EvictsExpired, CanPick, Picked, AllExpired;
      hide Rounds, LeftBy, LastRich, AllPicks, WentOn, RanOut;
      stats, evicted, rounds := Stats(0, 0, 0), [], [];
      ghost var before := Table();
      EvictNone(before, now);
      NoRounds(slots, now, rng.picks, timer.tests);
      if slots == [] {
        return;
      }
      var go := true;
      while go
        invariant Valid()
        invariant go ==> slots != []
        invariant EvictsExpired(before, now, evicted)
        invariant Table() == before - (set k | k in evicted)
        invariant stats.expired == |evicted| == old(|slots|) - |slots|
        invariant rng.picks == old(rng.picks) + AllPicks(rounds) && stats.sampled == |AllPicks(rounds)|
        invariant stats.rounds == |rounds| && (!go ==> rounds != [])
        invariant Rounds(old(slots), now, rounds) && slots == LeftBy(old(slots), now, rounds)
        invariant go && rounds != [] ==> LastRich(old(slots), now, rounds)
        invariant go ==> stats.sampled <= 4 * stats.expired && stats.rounds <= stats.expired
        invariant stats.sampled <= 4 * stats.expired + SAMPLE_PER_ROUND
        invariant stats.rounds <= stats.expired + 1
        invariant WentOn(old(timer.tests), timer.tests, if go then |rounds| + 1 else |rounds|)
        invariant AllExpired(old(slots), now) ==> AllExpired(slots, now) && stats.sampled == stats.expired
        invariant go ==> |timer.tests| == |old(timer.tests)| + |rounds|
        invariant !go && slots != [] ==> RanOut(old(timer.tests), timer.tests)
        decreases |slots|, go
      {
        ghost var was := slots;
        var sampled, gone, picks := SampleRound(rng, now);
        ExpiredPicked(was, now, picks);
        OneRound(old(slots), now, rounds, picks);
        AllPicksMore(old(rng.picks), rounds, picks);
        EvictMore(before, now, evicted, gone);
        evicted := evicted + gone;
        rounds := rounds + [picks];
        stats := Stats(stats.sampled + sampled, stats.expired + |gone|, stats.rounds + 1);
        ThresholdMeans(|gone|, sampled);
        if |gone| as real / sampled as real <= CONTINUE_THRESHOLD {
          break;
        }
        ghost var tests := timer.tests;
        var timeLeft := timer.TimeLeft();
        TestedOn(old(timer.tests), tests, timeLeft, |rounds|);
        go := timeLeft && slots != [];
      }
    }
  }

  // ---- the environment of a cycle ------------------------------------------

  /** The random number generator: any pick in range. */
  class Rng {
    ghost var picks: seq<nat>

    constructor ()
      ensures picks == []
    {
      picks := [];
    }

    method Pick(n: nat) returns (i: nat)
      requires n > 0
      modifies this
      ensures i < n && picks == old(picks) + [i]
    {
      i :| i < n;
      picks := picks + [i];
    }
  }

  /** The time budget of a cycle: any test may find that the time is up. */
  class Timer {
    ghost var tests: seq<bool>

    constructor ()
      ensures tests == []
    {
      tests := [];
    }

    method TimeLeft() returns (left: bool)
      modifies this
      ensures tests == old(tests) + [left]
    {
      left := *;
      tests := tests + [left];
    }
  }

  /** The slots after some picks, and the keys they evicted, in order. */
  function Picked(slots: seq<Slot>, now: int, picks: seq<nat>): (r: (seq<Slot>, seq<Bytes>))
    requires CanPick(slots, now, picks)
    decreases |picks|, 1
  {
    if picks == [] then (slots, [])
    else
      var n := |picks| - 1;
      var (at, gone) := Picked(slots, now, picks[..n]);
      if now < at[picks[n]].atMs then (at, gone)
      else (SwapOut(at, picks[n]), gone + [at[picks[n]].key])
  }

  /** Every pick is a slot that is there when it is made. */
  predicate CanPick(slots: seq<Slot>, now: int, picks: seq<nat>)
    decreases |picks|, 0
  {
    picks == [] ||
    var n := |picks| - 1;
    CanPick(slots, now, picks[..n]) && picks[n] < |Picked(slots, now, picks[..n]).0|
  }

  lemma PickNone(slots: seq<Slot>, now: int)
    ensures CanPick(slots, now, []) && Picked(slots, now, []) == (slots, [])
  {
  }

  lemma PickMore(slots: seq<Slot>, now: int, picks: seq<nat>, p: nat)
    requires CanPick(slots, now, picks) && p < |Picked(slots, now, picks).0|
    ensures CanPick(slots, now, picks + [p])
    ensures var (at, gone) := Picked(slots, now, picks);
            Picked(slots, now, picks + [p]) == if now < at[p].atMs then (at, gone)
                                              else (SwapOut(at, p), gone + [at[p].key])
  {
    assert (picks + [p])[..|picks|] == picks;
  }

  // ---- rounds --------------------------------------------------------------

  /** One round of picks: as many as there are slots, up to 20, or until nothing is left. */
  predicate Round(slots: seq<Slot>, now: int, picks: seq<nat>) {
    && CanPick(slots, now, picks) && 0 < |picks| <= 20
    && (|picks| == |slots| || |picks| == 20 || Picked(slots, now, picks).0 == [])
  }

  /** More than a quarter of the picks evicted something. */
  predicate Rich(slots: seq<Slot>, now: int, picks: seq<nat>)
    requires CanPick(slots, now, picks)
  {
    4 * |Picked(slots, now, picks).1| > |picks|
  }

  /** The slots some rounds leave. */
  function LeftBy(slots: seq<Slot>, now: int, rounds: seq<seq<nat>>): seq<Slot>
    decreases |rounds|
  {
    if rounds == [] then slots
    else
      var n := |rounds| - 1;
      var at := LeftBy(slots, now, rounds[..n]);
      if CanPick(at, now, rounds[n]) then Picked(at, now, rounds[n]).0 else at
  }

  /** Rounds of a cycle: each begins where the one before ended, which was rich and left something. */
  predicate Rounds(slots: seq<Slot>, now: int, rounds: seq<seq<nat>>)
    decreases |rounds|
  {
    rounds == [] ||
    var n := |rounds| - 1;
    && Rounds(slots, now, rounds[..n]) && Round(LeftBy(slots, now, rounds[..n]), now, rounds[n])
    && LeftBy(slots, now, rounds[..n]) != [] && (n > 0 ==> LastRich(slots, now, rounds[..n]))
  }

  /** The last round was rich. */
  predicate LastRich(slots: seq<Slot>, now: int, rounds: seq<seq<nat>>)
    requires rounds != []
  {
    var n := |rounds| - 1;
    var at := LeftBy(slots, now, rounds[..n]);
    CanPick(at, now, rounds[n]) && Rich(at, now, rounds[n])
  }

  function AllPicks(rounds: seq<seq<nat>>): seq<nat> {
    if rounds == [] then [] else AllPicks(rounds[..|rounds| - 1]) + rounds[|rounds| - 1]
  }

  lemma AllPicksMore(before: seq<nat>, rounds: seq<seq<nat>>, picks: seq<nat>)
    ensures before + AllPicks(rounds + [picks]) == (before + AllPicks(rounds)) + picks
    ensures |AllPicks(rounds + [picks])| == |AllPicks(rounds)| + |picks|
  {
    assert (rounds + [picks])[..|rounds|] == rounds;
    AppendAssoc(before, AllPicks(rounds), picks);
  }

  /** Before every round but the first a test had found time left. */
  predicate WentOn(before: seq<bool>, now: seq<bool>, rounds: nat) {
    && before <= now && |now| - |before| <= rounds <= |now| - |before| + 1
    && forall i :: |before| <= i < |before| + rounds - 1 ==> now[i]
  }

  /** One of the tests since then found that the time was up. */
  predicate RanOut(before: seq<bool>, now: seq<bool>) {
    exists i :: |before| <= i < |now| && !now[i]
  }

  /**
   What an active cycle does to the slots, for the picks and the tests it meets: it goes through
   rounds, at least one unless there is nothing, each but the first after a test that found time
   left; and it ends when nothing is left, or a round was poor, or the time ran out.
   */
  ghost predicate Cycled(slots: seq<Slot>, now: int, rounds: seq<seq<nat>>, left: seq<Slot>,
                         before: seq<bool>, tests: seq<bool>)
  {
    && (rounds == [] <==> slots == [])
    && Rounds(slots, now, rounds) && left == LeftBy(slots, now, rounds)
    && WentOn(before, tests, |rounds|)
    && (rounds != [] ==> left == [] || !LastRich(slots, now, rounds) || RanOut(before, tests))
  }

  lemma TestedOn(before: seq<bool>, now: seq<bool>, left: bool, rounds: nat)
    requires WentOn(before, now, rounds) && |now| - |before| < rounds
    ensures WentOn(before, now + [left], rounds) && (left ==> WentOn(before, now + [left], rounds + 1))
    ensures !left ==> RanOut(before, now + [left])
  {
    assert (now + [left])[|now|] == left;
  }

  lemma NoRounds(slots: seq<Slot>, now: int, picks: seq<nat>, tests: seq<bool>)
    ensures Rounds(slots, now, []) && LeftBy(slots, now, []) == slots && AllPicks([]) == []
    ensures picks + AllPicks([]) == picks && WentOn(tests, tests, 0) && WentOn(tests, tests, 1)
  {
  }

  lemma OneRound(slots: seq<Slot>, now: int, rounds: seq<seq<nat>>, picks: seq<nat>)
    requires Rounds(slots, now, rounds) && LeftBy(slots, now, rounds) != []
    requires rounds != [] ==> LastRich(slots, now, rounds)
    requires Round(LeftBy(slots, now, rounds), now, picks)
    ensures Rounds(slots, now, rounds + [picks])
    ensures LeftBy(slots, now, rounds + [picks]) == Picked(LeftBy(slots, now, rounds), now, picks).0
    ensures LastRich(slots, now, rounds + [picks]) <==>
            4 * |Picked(LeftBy(slots, now, rounds), now, picks).1| > |picks|
  {
    assert (rounds + [picks])[..|rounds|] == rounds;
  }

  /** Every deadline has passed. */
  predicate AllExpired(slots: seq<Slot>, now: int) {
    forall i :: 0 <= i < |slots| ==> slots[i].atMs <= now
  }

  /** In an expired table every pick evicts, and what is left is expired. */
  lemma {:induction false} ExpiredPicked(slots: seq<Slot>, now: int, picks: seq<nat>)
    requires CanPick(slots, now, picks)
    ensures AllExpired(slots, now) ==>
              var (at, gone) := Picked(slots, now, picks); AllExpired(at, now) && |gone| == |picks|
    decreases |picks|
  {
    if picks != [] {
      ExpiredPicked(slots, now, picks[..|picks| - 1]);
    }
  }

  /** Distinct keys of the table, each with a deadline that has passed. */
  ghost predicate EvictsExpired(table: map<Bytes, int>, now: int, keys: seq<Bytes>) {
    Distinct(keys) && forall i :: 0 <= i < |keys| ==> keys[i] in table && table[keys[i]] <= now
  }

  lemma EvictNone(table: map<Bytes, int>, now: int)
    ensures EvictsExpired(table, now, [])
    ensures table - (set k | k in []) == table
  {
  }

  lemma EvictOne(table: map<Bytes, int>, now: int, key: Bytes)
    requires key in table && table[key] <= now
    ensures EvictsExpired(table, now, [key])
    ensures table - (set k | k in [key]) == table - {key}
  {
  }

  /** More than a quarter of the sample, in integers. */
  lemma ThresholdMeans(expired: nat, sampled: nat)
    requires sampled > 0
    ensures expired as real / sampled as real <= CONTINUE_THRESHOLD <==> 4 * expired <= sampled
  {
  }

  lemma EvictMore(table: map<Bytes, int>, now: int, a: seq<Bytes>, b: seq<Bytes>)
    requires EvictsExpired(table, now, a)
    requires EvictsExpired(table - (set k | k in a), now, b)
    ensures EvictsExpired(table, now, a + b)
    ensures table - (set k | k in a + b) == table - (set k | k in a) - (set k | k in b)
  {
  }
}
