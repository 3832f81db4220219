/**
 A crash can cut the log between any two records, also between two records of one
 event. What is left is always the complete log of a shorter run: the events before
 the cut, and at most one smaller event in place of the one that was cut.
 */
module Cuts {
  import opened Base
  import opened Decimal
  import opened Keyspace
  import opened Commands
  import opened Laws
  import opened Execution
  import opened Logging
  import opened Recovery

  // ---- one event -----------------------------------------------------------

  /** What is left of an event: some evictions of its time, or a SET without its expiry. */
  predicate CutOf(c: Event, e: Event) {
    && c.now == e.now
    && (c.Cycle? || (e.Exec? && |e.cmd| >= 3 && c == Exec(e.now, e.order, e.cmd[..3]) && Upper(e.cmd[0]) == "SET"))
  }

  lemma EvictsSome(s: Store, now: int, keys: seq<Bytes>, k: nat)
    requires EvictsOnce(s, now, keys) && k <= |keys|
    ensures Possible(s, Cycle(now, keys[..k])) && DelRecords(keys[..k]) == DelRecords(keys)[..k]
  {
  }

  /** Only a SET with an expiry owes two records beyond its evictions. */
  lemma TwoRecords(now: int, order: seq<Bytes>, s: Store, verb: Verb, cmd: Command, op: Op)
    requires WellFormed(s) && Read(cmd) == Run(verb, op)
    requires |Owed(now, order, s, cmd)| > |Apply(now, order, s, op).evicted| + 1
    ensures op.Keyed? && op.op.Set? && CellOk(Found(s, now, op.key))
    ensures Owed(now, order, s, cmd)[..|Apply(now, order, s, op).evicted| + 1]
         == DelRecords(EvictedAt(s, now, op.key)) + [["SET", op.key, op.op.value]]
  {
    hide CellStep, Read;
    hide Owed, DelLoop, ExistsLoop, KeysLoop, Filter, EvictedAt;
    if op.Keyed? {
      OwedKeyed(now, order, s, verb, cmd, op.key, op.op);
    } else {
      OwedOther(now, order, s, verb, cmd, op);
    }
  }

  lemma SetVerb(verb: Verb, cmd: Command)
    requires cmd != [] && OpOf(verb, cmd).Keyed? && OpOf(verb, cmd).op.Set?
    ensures verb == SET && |cmd| >= 3 && cmd[1] == OpOf(verb, cmd).key && cmd[2] == OpOf(verb, cmd).op.value
  {
    hide ParseI64, Upper, AnswerPing, AnswerConfig, WrongArity, ScanSetOptions;
  }

  lemma VerbIsSet(name: Bytes)
    ensures VerbOf(name) == Some(SET) ==> name == "SET"
  {
  }

  /** The first three arguments of a SET are a SET without options. */
  lemma PlainSet(cmd: Command, op: Op)
    requires Read(cmd) == Run(SET, op) && op.Keyed? && op.op.Set?
    ensures |cmd| >= 3 && Upper(cmd[0]) == "SET"
    ensures Read(cmd[..3]) == Run(SET, Keyed(op.key, Set(op.op.value, false, false, None)))
  {
    hide Upper, VerbOf, ParseI64;
    SetVerb(SET, cmd);
    VerbIsSet(Upper(cmd[0]));
  }

  lemma PlainSetOwes(now: int, order: seq<Bytes>, s: Store, cmd: Command, k: Bytes, v: Bytes)
    requires WellFormed(s) && Read(cmd) == Run(SET, Keyed(k, Set(v, false, false, None)))
    ensures Owed(now, order, s, cmd) == DelRecords(EvictedAt(s, now, k)) + [["SET", k, v]]
    ensures Fits(s, Exec(now, order, cmd))
  {
    hide Read, Owed;
    OwedKeyed(now, order, s, SET, cmd, k, Set(v, false, false, None));
    var c := Found(s, now, k);
    assert KeyedRecords(now, c, cmd, k, Set(v, false, false, None)) == [["SET", k, v]] + [];
  }

  /** The first records of an event are everything a smaller event owes, which is never a hazard. */
  lemma CutEvent(s: Store, e: Event, k: nat) returns (c: Event)
    requires WellFormed(s) && Possible(s, e) && k < |Owes(s, e)|
    ensures CutOf(c, e) && Possible(s, c) && Fits(s, c) && Owes(s, c) == Owes(s, e)[..k]
    ensures forall rho :: !Hazard(rho, s, c)
  {
    match e {
      case Cycle(now, keys) =>
        EvictsSome(s, now, keys, k);
        c := Cycle(now, keys[..k]);
      case Exec(now, order, cmd) =>
        c := CutCommand(s, now, order, cmd, k);
    }
  }

  lemma CutCommand(s: Store, now: int, order: seq<Bytes>, cmd: Command, k: nat) returns (c: Event)
    requires WellFormed(s) && Enumerates(order, s.db.Keys) && k < |Owed(now, order, s, cmd)|
    ensures CutOf(c, Exec(now, order, cmd)) && Possible(s, c) && Fits(s, c)
    ensures Owes(s, c) == Owed(now, order, s, cmd)[..k]
    ensures forall rho :: !Hazard(rho, s, c)
  {
    hide OpOf, Apply, LogMutation, VerbOf;
    var verb, op := Read(cmd).verb, Read(cmd).op;
    OwedMeans(now, order, s, verb, cmd, op);
    PerformWellFormed(now, order, s, cmd);
    var gone := Apply(now, order, s, op).evicted;
    if k <= |gone| {
      EvictsSome(s, now, gone, k);
      c := Cycle(now, gone[..k]);
      assert Owed(now, order, s, cmd)[..k] == DelRecords(gone)[..k];
    } else {
      TwoRecords(now, order, s, verb, cmd, op);
      SetVerb(verb, cmd);
      PlainSet(cmd, op);
      PlainSetOwes(now, order, s, cmd[..3], op.key, op.op.value);
      AtMostTwo(now, order, s, verb, cmd, op);
      c := Exec(now, order, cmd[..3]);
    }
  }

  lemma AtMostTwo(now: int, order: seq<Bytes>, s: Store, verb: Verb, cmd: Command, op: Op)
    requires WellFormed(s) && Read(cmd) == Run(verb, op)
    ensures op.Keyed? ==> CellOk(At(s, op.key))
    ensures |Owed(now, order, s, cmd)| <= |Apply(now, order, s, op).evicted| + 2
  {
    hide CellStep, Read, OpOf;
    OwedMeans(now, order, s, verb, cmd, op);
  }

  // ---- a whole run ---------------------------------------------------------

  /** Where the first m owed records end: after j whole events and k records of the next. */
  lemma {:induction false} SplitOwed(s: Store, es: seq<Event>, m: nat) returns (j: nat, k: nat)
    requires WellFormed(s) && PossibleRun(s, es) && m <= |AllOwed(s, es)|
    ensures j <= |es| && PossibleRun(s, es[..j])
    ensures j < |es| ==> k < |Owes(Final(s, es[..j]), es[j])|
    ensures AllOwed(s, es)[..m] == AllOwed(s, es[..j]) + Partial(Final(s, es[..j]), es, j, k)
    ensures forall a :: 0 <= a <= |es| && PossibleRun(s, es[..a]) && |AllOwed(s, es[..a])| <= m ==> a <= j
    decreases |es|
  {
    hide Next, Owes, Possible, Fits;
    if es == [] {
      j, k := 0, 0;
      assert es[..0] == [];
    } else {
      NextWellFormed(s, es[0]);
      var s1 := Next(s, es[0]);
      var owed := Owes(s, es[0]);
      if m < |owed| {
        j, k := 0, m;
        assert es[..0] == [];
        assert AllOwed(s, es)[..m] == owed[..m];
        assert [] + owed[..m] == owed[..m];
        forall a | 0 < a <= |es| && PossibleRun(s, es[..a])
          ensures |AllOwed(s, es[..a])| > m
        {
          OwedPrefixCons(s, es, a);
        }
      } else {
        var j1, k1 := SplitOwed(s1, es[1..], m - |owed|);
        j, k := j1 + 1, k1;
        assert es[..j][1..] == es[1..][..j1];
        assert es[..j][0] == es[0];
        AppendAssoc(owed, AllOwed(s1, es[1..][..j1]), Partial(Final(s1, es[1..][..j1]), es[1..], j1, k1));
        assert AllOwed(s, es)[..m] == owed + AllOwed(s1, es[1..])[..m - |owed|];
        forall a | 0 < a <= |es| && PossibleRun(s, es[..a]) && |AllOwed(s, es[..a])| <= m
          ensures a <= j
        {
          OwedPrefixCons(s, es, a);
        }
      }
    }
  }

  lemma OwedPrefixCons(s: Store, es: seq<Event>, a: nat)
    requires WellFormed(s) && PossibleRun(s, es) && 0 < a <= |es| && PossibleRun(s, es[..a])
    ensures WellFormed(Next(s, es[0])) && PossibleRun(Next(s, es[0]), es[1..][..a - 1])
    ensures |AllOwed(s, es[..a])| == |Owes(s, es[0])| + |AllOwed(Next(s, es[0]), es[1..][..a - 1])|
  {
    hide Next, Owes, Possible, Fits;
    NextWellFormed(s, es[0]);
    assert es[..a][1..] == es[1..][..a - 1];
  }

  /** The first k records of event j, none when the run ends there. */
  ghost function Partial(s: Store, es: seq<Event>, j: nat, k: nat): seq<Command>
    requires WellFormed(s) && j <= |es|
    requires j < |es| ==> k <= |Owes(s, es[j])|
  {
    if j < |es| then Owes(s, es[j])[..k] else []
  }

  /** What a cut leaves of a run: its first j events, and at most a cut of the next one. */
  predicate KeptOf(kept: seq<Event>, es: seq<Event>, j: nat) {
    && j <= |es| && j <= |kept| <= j + 1 && kept[..j] == es[..j]
    && (|kept| == j + 1 ==> j < |es| && CutOf(kept[j], es[j]))
  }

  /** One more event at the end of a run. */
  lemma {:induction false} RunSnoc(rho: int, s: Store, es: seq<Event>, c: Event)
    requires WellFormed(s) && PossibleRun(s, es) && Possible(Final(s, es), c) && Fits(Final(s, es), c)
    ensures PossibleRun(s, es + [c])
    ensures AllOwed(s, es + [c]) == AllOwed(s, es) + Owes(Final(s, es), c)
    ensures Final(s, es + [c]) == Next(Final(s, es), c)
    ensures HazardFree(rho, s, es + [c]) <==> HazardFree(rho, s, es) && !Hazard(rho, Final(s, es), c)
    decreases |es|
  {
    hide Next, Owes, Possible, Fits, Hazard;
    if es == [] {
      assert es + [c] == [c] && [c][1..] == [];
      NextWellFormed(s, c);
      assert AllOwed(Next(s, c), []) == [];
      assert Owes(s, c) + [] == Owes(s, c) && [] + Owes(s, c) == Owes(s, c);
    } else {
      assert (es + [c])[1..] == es[1..] + [c] && (es + [c])[0] == es[0];
      NextWellFormed(s, es[0]);
      RunSnoc(rho, Next(s, es[0]), es[1..], c);
      AppendAssoc(Owes(s, es[0]), AllOwed(Next(s, es[0]), es[1..]), Owes(Final(s, es), c));
    }
  }

  lemma {:induction false} HazardPrefix(rho: int, s: Store, es: seq<Event>, j: nat)
    requires WellFormed(s) && PossibleRun(s, es) && j <= |es| && PossibleRun(s, es[..j])
    ensures HazardFree(rho, s, es) ==> HazardFree(rho, s, es[..j])
    decreases |es|
  {
    hide Next, Owes, Possible, Fits, Hazard;
    if j > 0 {
      NextWellFormed(s, es[0]);
      assert es[..j][1..] == es[1..][..j - 1] && es[..j][0] == es[0];
      HazardPrefix(rho, Next(s, es[0]), es[1..], j - 1);
    }
  }

  /**
   The first m records a run owes are everything a shorter run owes, which has no hazard
   unless the run has; it keeps every event all of whose records are among them.
   */
  lemma KeptRun(s: Store, es: seq<Event>, m: nat) returns (j: nat, kept: seq<Event>)
    requires WellFormed(s) && PossibleRun(s, es) && m <= |AllOwed(s, es)|
    ensures KeptOf(kept, es, j) && PossibleRun(s, kept) && AllOwed(s, kept) == AllOwed(s, es)[..m]
    ensures forall rho :: HazardFree(rho, s, es) ==> HazardFree(rho, s, kept)
    ensures forall a :: 0 <= a <= |es| && PossibleRun(s, es[..a]) && |AllOwed(s, es[..a])| <= m ==> a <= j
  {
    hide Next, Owes, Possible, Fits, Hazard, PossibleRun, AllOwed, HazardFree, Final, CutOf;
    var k;
    j, k := SplitOwed(s, es, m);
    var at := Final(s, es[..j]);
    kept := es[..j];
    assert AllOwed(s, kept) + [] == AllOwed(s, kept);
    if j < |es| && k > 0 {
      PossibleAt(s, es, j);
      var c := CutEvent(at, es[j], k);
      kept := es[..j] + [c];
      RunSnoc(0, s, es[..j], c);
      forall rho
        ensures HazardFree(rho, s, es) ==> HazardFree(rho, s, kept)
      {
        RunSnoc(rho, s, es[..j], c);
        HazardPrefix(rho, s, es, j);
      }
    } else {
      forall rho
        ensures HazardFree(rho, s, es) ==> HazardFree(rho, s, kept)
      {
        HazardPrefix(rho, s, es, j);
      }
    }
  }

  lemma {:induction false} PossibleAt(s: Store, es: seq<Event>, j: nat)
    requires WellFormed(s) && PossibleRun(s, es) && j < |es| && PossibleRun(s, es[..j])
    ensures Possible(Final(s, es[..j]), es[j])
    decreases |es|
  {
    hide Next, Owes, Possible, Fits;
    if j == 0 {
      assert es[..0] == [];
    } else {
      NextWellFormed(s, es[0]);
      assert es[..j][1..] == es[1..][..j - 1] && es[..j][0] == es[0];
      PossibleAt(Next(s, es[0]), es[1..], j - 1);
    }
  }
}
