/**
 The snapshot file: every entry with its deadline, in the map's iteration order.
 Integers are little-endian, the byte order of the hosts the server runs on.
 */
module Snapshot {
  import opened Base
  import opened Keyspace
  import opened Commands
  import Db
  import Expiry

  const MAGIC: Bytes := "HDB1"

  // ---- fixed-width integers ------------------------------------------------

  function Pow256(w: nat): (p: nat)
    ensures p > 0
  {
    if w == 0 then 1 else 256 * Pow256(w - 1)
  }

  /** The w low-order bytes of n. */
  function Word(n: nat, w: nat): (b: Bytes)
    ensures |b| == w
  {
    if w == 0 then [] else [(n % 256) as char] + Word(n / 256, w - 1)
  }

  function WordValue(b: Bytes): nat {
    if b == [] then 0 else b[0] as int + 256 * WordValue(b[1..])
  }

  /** A number that fits its width reads back. */
  lemma {:induction false} WordRoundTrip(n: nat, w: nat)
    requires n < Pow256(w)
    ensures WordValue(Word(n, w)) == n
  {
    if w > 0 {
      WordRoundTrip(n / 256, w - 1);
      assert Word(n, w)[1..] == Word(n / 256, w - 1);
    }
  }

  const TWO_63: nat := 0x8000_0000_0000_0000
  const TWO_64: nat := 0x1_0000_0000_0000_0000

  /** An int64 as the unsigned number with the same bits. */
  function Unsigned(n: int): nat
    requires InI64(n)
  {
    if n < 0 then n + TWO_64 else n
  }

  function Signed(n: nat): int {
    if n >= TWO_63 then n - TWO_64 else n
  }

  lemma Pow256Values()
    ensures Pow256(4) == 0x1_0000_0000 && Pow256(8) == TWO_64
  {
  }

  // ---- writing -------------------------------------------------------------

  function PutBytes(s: Bytes): Bytes {
    Word(|s|, 4) + s
  }

  function PutAll(items: seq<Bytes>): Bytes {
    if items == [] then [] else PutBytes(items[0]) + PutAll(items[1..])
  }

  function PutDeadline(at: Option<int>): Bytes
    requires at.Some? ==> InI64(at.value)
  {
    if at.Some? then [1 as char] + Word(Unsigned(at.value), 8) else [0 as char]
  }

  function PutValue(v: Value): Bytes {
    match v
    case Str(s) => PutBytes(s)
    case List(items) => Word(|items|, 4) + PutAll(items)
  }

  function TypeByte(v: Value): Bytes {
    [if v.Str? then 0 as char else 1 as char]
  }

  datatype Entry = Entry(key: Bytes, value: Value, at: Option<int>)

  /** Deadlines are int64 values. */
  predicate Timed(e: Entry) {
    e.at.Some? ==> InI64(e.at.value)
  }

  predicate AllTimed(es: seq<Entry>) {
    forall i :: 0 <= i < |es| ==> Timed(es[i])
  }

  function PutEntry(e: Entry): Bytes
    requires Timed(e)
  {
    TypeByte(e.value) + PutBytes(e.key) + PutDeadline(e.at) + PutValue(e.value)
  }

  /** Lengths and counts fit the fields that store them; longer ones would be cut to 32 bits. */
  predicate Storable(e: Entry) {
    && |e.key| < 0x1_0000_0000
    && Timed(e)
    && match e.value
       case Str(s) => |s| < 0x1_0000_0000
       case List(items) => |items| < 0x1_0000_0000 && forall i :: 0 <= i < |items| ==> |items[i]| < 0x1_0000_0000
  }

  predicate AllStorable(es: seq<Entry>) {
    forall i :: 0 <= i < |es| ==> Storable(es[i])
  }

  function PutEntries(es: seq<Entry>): Bytes
    requires AllTimed(es)
  {
    if es == [] then [] else PutEntry(es[0]) + PutEntries(es[1..])
  }

  function Save(es: seq<Entry>): Bytes
    requires AllTimed(es)
  {
    MAGIC + Word(|es|, 8) + PutEntries(es)
  }

  // ---- reading -------------------------------------------------------------

  /** What a read leaves: a value and the rest of the file, or failure. */
  datatype Got<T> = Bad | Got(value: T, rest: Bytes)

  function GetWord(b: Bytes, w: nat): Got<nat> {
    if |b| < w then Bad else Got(WordValue(b[..w]), b[w..])
  }

  /** A byte that must be 0 or 1. */
  function GetFlag(b: Bytes): Got<bool> {
    if b == [] || b[0] as int > 1 then Bad else Got(b[0] as int == 1, b[1..])
  }

  /** A length is first compared with the bytes left in the file, then read. */
  function GetBytes(b: Bytes): Got<Bytes> {
    match GetWord(b, 4)
    case Bad => Bad
    case Got(len, rest) =>
      if len > |b| || len > |rest| then Bad else Got(rest[..len], rest[len..])
  }

  function GetAll(b: Bytes, n: nat): Got<seq<Bytes>>
    decreases n
  {
    if n == 0 then Got([], b)
    else
      match GetBytes(b)
      case Bad => Bad
      case Got(item, rest) =>
        match GetAll(rest, n - 1)
        case Bad => Bad
        case Got(items, end) => Got([item] + items, end)
  }

  function GetDeadline(b: Bytes): Got<Option<int>> {
    match GetFlag(b)
    case Bad => Bad
    case Got(has, rest) =>
      if !has then Got(None, rest)
      else
        match GetWord(rest, 8)
        case Bad => Bad
        case Got(n, end) => Got(Some(Signed(n)), end)
  }

  function GetList(b: Bytes): Got<Value> {
    match GetWord(b, 4)
    case Bad => Bad
    case Got(n, rest) =>
      match GetAll(rest, n)
      case Bad => Bad
      case Got(items, end) => Got(List(items), end)
  }

  function GetString(b: Bytes): Got<Value> {
    match GetBytes(b)
    case Bad => Bad
    case Got(s, end) => Got(Str(s), end)
  }

  function GetEntry(b: Bytes): Got<Entry> {
    match GetFlag(b)
    case Bad => Bad
    case Got(isList, b1) =>
      match GetBytes(b1)
      case Bad => Bad
      case Got(key, b2) =>
        match GetDeadline(b2)
        case Bad => Bad
        case Got(at, b3) =>
          match if isList then GetList(b3) else GetString(b3)
          case Bad => Bad
          case Got(v, end) => Got(Entry(key, v, at), end)
  }

  function GetEntries(b: Bytes, n: nat): Got<seq<Entry>>
    decreases n
  {
    if n == 0 then Got([], b)
    else
      match GetEntry(b)
      case Bad => Bad
      case Got(e, rest) =>
        match GetEntries(rest, n - 1)
        case Bad => Bad
        case Got(es, end) => Got([e] + es, end)
  }

  function Load(file: Bytes): Got<seq<Entry>> {
    if |file| < 4 || file[..4] != MAGIC then Bad
    else
      match GetWord(file[4..], 8)
      case Bad => Bad
      case Got(n, rest) => GetEntries(rest, n)
  }

  // ---- reading back what was written ---------------------------------------

  lemma GotWord(n: nat, w: nat, rest: Bytes)
    requires n < Pow256(w)
    ensures GetWord(Word(n, w) + rest, w) == Got(n, rest)
  {
    WordRoundTrip(n, w);
    assert (Word(n, w) + rest)[..w] == Word(n, w) && (Word(n, w) + rest)[w..] == rest;
  }

  lemma GotBytes(s: Bytes, rest: Bytes)
    requires |s| < 0x1_0000_0000
    ensures GetBytes(PutBytes(s) + rest) == Got(s, rest)
  {
    Pow256Values();
    AppendAssoc(Word(|s|, 4), s, rest);
    GotWord(|s|, 4, s + rest);
    assert (s + rest)[..|s|] == s && (s + rest)[|s|..] == rest;
  }

  lemma {:induction false} GotAll(items: seq<Bytes>, rest: Bytes)
    requires forall i :: 0 <= i < |items| ==> |items[i]| < 0x1_0000_0000
    ensures GetAll(PutAll(items) + rest, |items|) == Got(items, rest)
  {
    hide GetBytes, PutBytes;
    if items == [] {
      assert PutAll(items) + rest == rest;
    } else {
      AppendAssoc(PutBytes(items[0]), PutAll(items[1..]), rest);
      GotBytes(items[0], PutAll(items[1..]) + rest);
      GotAll(items[1..], rest);
      assert [items[0]] + items[1..] == items;
    }
  }

  lemma GotDeadline(at: Option<int>, rest: Bytes)
    requires at.Some? ==> InI64(at.value)
    ensures GetDeadline(PutDeadline(at) + rest) == Got(at, rest)
  {
    hide Word, GetWord;
    var b := PutDeadline(at) + rest;
    if at.Some? {
      Pow256Values();
      assert b[1..] == Word(Unsigned(at.value), 8) + rest;
      GotWord(Unsigned(at.value), 8, rest);
    } else {
      assert b[1..] == rest;
    }
  }

  lemma GotValue(v: Value, rest: Bytes)
    requires Storable(Entry([], v, None))
    ensures (if v.List? then GetList(PutValue(v) + rest) else GetString(PutValue(v) + rest)) == Got(v, rest)
  {
    hide GetBytes, PutBytes, GetAll, PutAll, GetWord, Word;
    match v {
      case Str(s) => GotBytes(s, rest);
      case List(items) =>
        Pow256Values();
        AppendAssoc(Word(|items|, 4), PutAll(items), rest);
        GotWord(|items|, 4, PutAll(items) + rest);
        GotAll(items, rest);
    }
  }

  lemma StorableTimed(es: seq<Entry>)
    requires AllStorable(es)
    ensures AllTimed(es)
  {
  }

  lemma GotEntry(e: Entry, rest: Bytes)
    requires Storable(e)
    ensures GetEntry(PutEntry(e) + rest) == Got(e, rest)
  {
    hide GetBytes, PutBytes, GetDeadline, PutDeadline, GetList, GetString, PutValue;
    var t, k, d, v := TypeByte(e.value), PutBytes(e.key), PutDeadline(e.at), PutValue(e.value);
    var b := PutEntry(e) + rest;
    assert b == t + (k + (d + (v + rest)));
    assert b[1..] == k + (d + (v + rest));
    GotBytes(e.key, d + (v + rest));
    GotDeadline(e.at, v + rest);
    GotValue(e.value, rest);
  }

  lemma {:induction false} GotEntries(es: seq<Entry>, rest: Bytes)
    requires AllStorable(es)
    ensures AllTimed(es) && GetEntries(PutEntries(es) + rest, |es|) == Got(es, rest)
  {
    hide GetEntry, PutEntry;
    StorableTimed(es);
    if es == [] {
      assert PutEntries(es) + rest == rest;
    } else {
      AppendAssoc(PutEntry(es[0]), PutEntries(es[1..]), rest);
      GotEntry(es[0], PutEntries(es[1..]) + rest);
      GotEntries(es[1..], rest);
      assert [es[0]] + es[1..] == es;
    }
  }

  /** A saved snapshot loads back, entry by entry, with nothing left over. */
  lemma SaveLoad(es: seq<Entry>)
    requires AllStorable(es) && |es| < TWO_64
    ensures AllTimed(es) && Load(Save(es)) == Got(es, [])
  {
    hide GetEntries, PutEntries, GetWord, Word;
    StorableTimed(es);
    var file := Save(es);
    Pow256Values();
    assert file == MAGIC + (Word(|es|, 8) + PutEntries(es));
    assert file[..4] == MAGIC && file[4..] == Word(|es|, 8) + PutEntries(es);
    GotWord(|es|, 8, PutEntries(es));
    GotEntries(es, []);
    assert PutEntries(es) + [] == PutEntries(es);
  }

  // ---- nothing else loads --------------------------------------------------

  /** Every character is a byte. */
  predicate AreBytes(b: Bytes) {
    forall i :: 0 <= i < |b| ==> b[i] as int < 256
  }

  lemma {:induction false} WordInverse(b: Bytes)
    requires AreBytes(b)
    ensures WordValue(b) < Pow256(|b|) && Word(WordValue(b), |b|) == b
  {
    if b != [] {
      WordInverse(b[1..]);
      var v := WordValue(b[1..]);
      assert WordValue(b) % 256 == b[0] as int && WordValue(b) / 256 == v;
    }
  }

  /** What was read, written again, is what the file held; the rest of the file is untouched. */
  lemma ReadWord(b: Bytes, w: nat)
    requires AreBytes(b) && GetWord(b, w).Got?
    ensures var g := GetWord(b, w); b == Word(g.value, w) + g.rest && AreBytes(g.rest) && g.value < Pow256(w)
  {
    WordInverse(b[..w]);
  }

  lemma ReadBytes(b: Bytes)
    requires AreBytes(b) && GetBytes(b).Got?
    ensures var g := GetBytes(b);
            b == PutBytes(g.value) + g.rest && AreBytes(g.rest) && |g.value| < 0x1_0000_0000
  {
    hide Word, WordValue;
    Pow256Values();
    ReadWord(b, 4);
    var w := GetWord(b, 4);
    assert w.rest == w.rest[..w.value] + w.rest[w.value..];
  }

  predicate AllShort(items: seq<Bytes>) {
    forall i :: 0 <= i < |items| ==> |items[i]| < 0x1_0000_0000
  }

  lemma {:induction false} ReadAll(b: Bytes, n: nat)
    requires AreBytes(b) && GetAll(b, n).Got?
    ensures var g := GetAll(b, n);
            b == PutAll(g.value) + g.rest && AreBytes(g.rest) && |g.value| == n && AllShort(g.value)
    decreases n
  {
    hide GetBytes, PutBytes;
    if n > 0 {
      ReadBytes(b);
      var g := GetBytes(b);
      ReadAll(g.rest, n - 1);
      var more := GetAll(g.rest, n - 1);
      var items := [g.value] + more.value;
      assert items[1..] == more.value;
      AppendAssoc(PutBytes(g.value), PutAll(more.value), more.rest);
    }
  }

  lemma ReadDeadline(b: Bytes)
    requires AreBytes(b) && GetDeadline(b).Got?
    ensures var g := GetDeadline(b);
            && (g.value.Some? ==> InI64(g.value.value))
            && b == PutDeadline(g.value) + g.rest && AreBytes(g.rest)
  {
    hide Word, WordValue;
    Pow256Values();
    var rest := b[1..];
    if GetFlag(b).value {
      assert b == [1 as char] + rest;
      ReadWord(rest, 8);
    } else {
      assert b == [0 as char] + rest;
    }
  }

  lemma ReadValue(b: Bytes, isList: bool)
    requires AreBytes(b) && (if isList then GetList(b) else GetString(b)).Got?
    ensures var g := if isList then GetList(b) else GetString(b);
            && b == PutValue(g.value) + g.rest && AreBytes(g.rest) && g.value.List? == isList
            && (g.value.Str? ==> |g.value.s| < 0x1_0000_0000)
            && (g.value.List? ==> |g.value.items| < 0x1_0000_0000 && AllShort(g.value.items))
  {
    hide Word, WordValue, GetBytes, GetAll, PutAll, PutBytes, GetWord;
    if isList {
      Pow256Values();
      ReadWord(b, 4);
      var w := GetWord(b, 4);
      ReadAll(w.rest, w.value);
      var g := GetAll(w.rest, w.value);
      AppendAssoc(Word(w.value, 4), PutAll(g.value), g.rest);
    } else {
      ReadBytes(b);
    }
  }

  lemma ReadEntryBack(b: Bytes)
    requires AreBytes(b) && GetEntry(b).Got?
    ensures var g := GetEntry(b);
            Storable(g.value) && Timed(g.value) && b == PutEntry(g.value) + g.rest && AreBytes(g.rest)
  {
    hide GetBytes, PutBytes, GetDeadline, PutDeadline, GetList, GetString, PutValue;
    var g := GetEntry(b);
    var e := g.value;
    var b1 := b[1..];
    ReadBytes(b1);
    var b2 := GetBytes(b1).rest;
    ReadDeadline(b2);
    var b3 := GetDeadline(b2).rest;
    ReadValue(b3, b[0] as int == 1);
    var t, k, d, v := TypeByte(e.value), PutBytes(e.key), PutDeadline(e.at), PutValue(e.value);
    assert b == t + b1;
    assert t + (k + (d + (v + g.rest))) == (t + k + d + v) + g.rest;
  }

  lemma {:induction false} ReadEntries(b: Bytes, n: nat)
    requires AreBytes(b) && GetEntries(b, n).Got?
    ensures var g := GetEntries(b, n);
            && |g.value| == n && AllStorable(g.value) && AllTimed(g.value)
            && b == PutEntries(g.value) + g.rest && AreBytes(g.rest)
    decreases n
  {
    hide GetEntry, PutEntry, Storable;
    if n > 0 {
      ReadEntryBack(b);
      var g := GetEntry(b);
      ReadEntries(g.rest, n - 1);
      var more := GetEntries(g.rest, n - 1);
      var es := [g.value] + more.value;
      assert es[1..] == more.value;
      StorableTimed(es);
      AppendAssoc(PutEntry(g.value), PutEntries(more.value), more.rest);
    }
  }

  /** A file loads exactly if it begins with a saved snapshot, and as that snapshot; what follows is not looked at. */
  lemma LoadExact(file: Bytes, es: seq<Entry>, rest: Bytes)
    requires AreBytes(file)
    ensures Load(file) == Got(es, rest) <==>
            AllStorable(es) && AllTimed(es) && |es| < TWO_64 && file == Save(es) + rest
  {
    hide GetEntries, PutEntries, Word, WordValue, AllStorable, AllTimed;
    Pow256Values();
    if Load(file) == Got(es, rest) {
      var body := file[4..];
      ReadWord(body, 8);
      var w := GetWord(body, 8);
      ReadEntries(w.rest, w.value);
      assert file == MAGIC + body;
      assert MAGIC + (Word(w.value, 8) + (PutEntries(es) + rest)) == Save(es) + rest;
    }
    if AllStorable(es) && AllTimed(es) && |es| < TWO_64 && file == Save(es) + rest {
      assert file == MAGIC + (Word(|es|, 8) + (PutEntries(es) + rest));
      assert file[..4] == MAGIC && file[4..] == Word(|es|, 8) + (PutEntries(es) + rest);
      GotWord(|es|, 8, PutEntries(es) + rest);
      GotEntries(es, rest);
    }
  }

  /** The bytes of a snapshot of one string with a deadline: order, widths and byte order of the fields. */
  lemma SnapshotBytes()
    ensures var n := 0 as char;
            Save([Entry("k", Str("v"), Some(258))]) ==
            "HDB1" + [1 as char, n, n, n, n, n, n, n]
            + ([n]
               + ([1 as char, n, n, n] + "k")
               + ([1 as char] + [2 as char, 1 as char, n, n, n, n, n, n])
               + ([1 as char, n, n, n] + "v"))
  {
    hide Word;
    var e := Entry("k", Str("v"), Some(258));
    assert [e][1..] == [];
    SmallWords();
    assert PutEntries([e]) == PutEntry(e) + PutEntries([]) == PutEntry(e);
  }

  lemma SmallWords()
    ensures var n := 0 as char;
            && Word(1, 4) == [1 as char, n, n, n]
            && Word(1, 8) == [1 as char, n, n, n, n, n, n, n]
            && Word(258, 8) == [2 as char, 1 as char, n, n, n, n, n, n]
  {
    var n := 0 as char;
    assert Word(0, 0) == [] && Word(0, 1) == [n] && Word(0, 2) == [n] + Word(0, 1);
    assert Word(0, 3) == [n] + Word(0, 2) && Word(0, 4) == [n] + Word(0, 3) && Word(0, 5) == [n] + Word(0, 4);
    assert Word(0, 6) == [n] + Word(0, 5) && Word(0, 7) == [n] + Word(0, 6);
    assert Word(1, 4) == [1 as char] + Word(0, 3) && Word(1, 8) == [1 as char] + Word(0, 7);
    assert Word(1, 7) == [1 as char] + Word(0, 6) && Word(258, 8) == [2 as char] + Word(1, 7);
  }

  // ---- truncation ----------------------------------------------------------

  /** A read that succeeds is not changed by bytes further on. */
  ghost predicate Grows<T>(short: Got<T>, long: Got<T>, more: Bytes) {
    short.Got? ==> long == Got(short.value, short.rest + more)
  }

  lemma GrowsWord(b: Bytes, w: nat, more: Bytes)
    ensures Grows(GetWord(b, w), GetWord(b + more, w), more)
  {
    if |b| >= w {
      assert (b + more)[..w] == b[..w] && (b + more)[w..] == b[w..] + more;
    }
  }

  lemma GrowsFlag(b: Bytes, more: Bytes)
    ensures Grows(GetFlag(b), GetFlag(b + more), more)
  {
  }

  lemma GrowsBytes(b: Bytes, more: Bytes)
    ensures Grows(GetBytes(b), GetBytes(b + more), more)
  {
    hide GetWord;
    GrowsWord(b, 4, more);
    var g := GetWord(b, 4);
    if g.Got? && g.value <= |g.rest| {
      assert (g.rest + more)[..g.value] == g.rest[..g.value];
      assert (g.rest + more)[g.value..] == g.rest[g.value..] + more;
    }
  }

  lemma {:induction false} GrowsAll(b: Bytes, n: nat, more: Bytes)
    ensures Grows(GetAll(b, n), GetAll(b + more, n), more)
    decreases n
  {
    hide GetBytes;
    if n > 0 {
      GrowsBytes(b, more);
      if GetBytes(b).Got? {
        GrowsAll(GetBytes(b).rest, n - 1, more);
      }
    }
  }

  lemma GrowsDeadline(b: Bytes, more: Bytes)
    ensures Grows(GetDeadline(b), GetDeadline(b + more), more)
  {
    hide GetFlag, GetWord;
    GrowsFlag(b, more);
    if GetFlag(b).Got? {
      GrowsWord(GetFlag(b).rest, 8, more);
    }
  }

  lemma GrowsList(b: Bytes, more: Bytes)
    ensures Grows(GetList(b), GetList(b + more), more)
  {
    hide GetAll, GetWord;
    GrowsWord(b, 4, more);
    if GetWord(b, 4).Got? {
      GrowsAll(GetWord(b, 4).rest, GetWord(b, 4).value, more);
    }
  }

  lemma GrowsString(b: Bytes, more: Bytes)
    ensures Grows(GetString(b), GetString(b + more), more)
  {
    hide GetBytes;
    GrowsBytes(b, more);
  }

  lemma GrowsEntry(b: Bytes, more: Bytes)
    ensures Grows(GetEntry(b), GetEntry(b + more), more)
  {
    hide GetFlag, GetBytes, GetDeadline, GetList, GetString;
    GrowsFlag(b, more);
    var g1 := GetFlag(b);
    if g1.Got? {
      GrowsBytes(g1.rest, more);
      var g2 := GetBytes(g1.rest);
      if g2.Got? {
        GrowsDeadline(g2.rest, more);
        var g3 := GetDeadline(g2.rest);
        if g3.Got? {
          GrowsList(g3.rest, more);
          GrowsString(g3.rest, more);
        }
      }
    }
  }

  lemma {:induction false} GrowsEntries(b: Bytes, n: nat, more: Bytes)
    ensures Grows(GetEntries(b, n), GetEntries(b + more, n), more)
    decreases n
  {
    hide GetEntry;
    if n > 0 {
      GrowsEntry(b, more);
      if GetEntry(b).Got? {
        GrowsEntries(GetEntry(b).rest, n - 1, more);
      }
    }
  }

  lemma GrowsLoad(b: Bytes, more: Bytes)
    ensures Grows(Load(b), Load(b + more), more)
  {
    hide GetWord, GetEntries;
    if |b| >= 4 {
      assert (b + more)[..4] == b[..4] && (b + more)[4..] == b[4..] + more;
      GrowsWord(b[4..], 8, more);
      var g := GetWord(b[4..], 8);
      if g.Got? {
        GrowsEntries(g.rest, g.value, more);
      }
    }
  }

  /** Loading any strict prefix of a saved snapshot fails. */
  lemma TruncationDetected(es: seq<Entry>, part: Bytes)
    requires AllStorable(es) && AllTimed(es) && |es| < TWO_64
    requires part <= Save(es) && part != Save(es)
    ensures Load(part).Bad?
  {
    hide Load, Save;
    var file := Save(es);
    SaveLoad(es);
    var more := file[|part|..];
    assert file == part + more;
    GrowsLoad(part, more);
  }

  // ---- entries and stores --------------------------------------------------

  /** The entries of a store, in iteration order. */
  function EntriesOf(s: Store, order: seq<Bytes>): (es: seq<Entry>)
    requires forall k :: k in order ==> k in s.db
    ensures |es| == |order|
  {
    seq(|order|, i requires 0 <= i < |order| => Entry(order[i], s.db[order[i]], Lookup(s.ttl, order[i])))
  }

  /** Restoring one entry over a store. */
  function Restore(s: Store, e: Entry): Store {
    Store(s.db[e.key := e.value], if e.at.Some? then s.ttl[e.key := e.at.value] else s.ttl)
  }

  function RestoreAll(s: Store, es: seq<Entry>): Store
    decreases |es|
  {
    if es == [] then s else RestoreAll(Restore(s, es[0]), es[1..])
  }

  ghost predicate StorableStore(s: Store) {
    |s.db| < TWO_64 && forall k :: k in s.db ==> Storable(Entry(k, s.db[k], Lookup(s.ttl, k)))
  }

  /** After restoring the keys of a list, those keys are as in the saved store and no others changed. */
  lemma {:induction false} RestoredCells(s: Store, base: Store, order: seq<Bytes>, k: Bytes)
    requires (forall j :: j in order ==> j in s.db) && Distinct(order)
    requires forall j :: j in order ==> At(base, j) == GONE
    ensures At(RestoreAll(base, EntriesOf(s, order)), k) == if k in order then At(s, k) else At(base, k)
    decreases |order|
  {
    if order != [] {
      var rest := order[1..];
      assert order == [order[0]] + rest;
      DistinctCons(order[0], rest);
      assert EntriesOf(s, order)[1..] == EntriesOf(s, rest);
      var next := Restore(base, EntriesOf(s, order)[0]);
      forall j | j in rest
        ensures At(next, j) == GONE
      {
        assert j in order && j != order[0];
        assert At(base, j) == GONE;
      }
      assert At(base, order[0]) == GONE;
      RestoredCells(s, next, rest, k);
    }
  }

  lemma {:induction false} OrderLength(order: seq<Bytes>, keys: set<Bytes>)
    requires Enumerates(order, keys)
    ensures |order| == |keys|
    decreases |order|
  {
    if order == [] {
      assert keys == {};
    } else {
      var rest := order[1..];
      assert order == [order[0]] + rest;
      DistinctCons(order[0], rest);
      assert (set k | k in rest) == keys - {order[0]};
      OrderLength(rest, keys - {order[0]});
    }
  }

  /** The round trip on stores, for any iteration order: exactly the entries and deadlines saved. */
  lemma SnapshotRoundTrip(s: Store, order: seq<Bytes>)
    requires WellFormed(s) && StorableStore(s) && Enumerates(order, s.db.Keys)
    ensures forall k :: k in order ==> k in s.db
    ensures AllTimed(EntriesOf(s, order))
    ensures var got := Load(Save(EntriesOf(s, order)));
            got.Got? && RestoreAll(EMPTY, got.value) == s
  {
    hide Load, Save, Storable;
    assert forall k :: k in order <==> k in (set j | j in order);
    var es := EntriesOf(s, order);
    OrderLength(order, s.db.Keys);
    SaveLoad(es);
    forall k
      ensures At(RestoreAll(EMPTY, es), k) == At(s, k)
    {
      RestoredCells(s, EMPTY, order, k);
      assert CellOk(At(s, k));
    }
    SameCells(RestoreAll(EMPTY, es), s);
  }

  // ---- the file objects ----------------------------------------------------

  /** An input file with a read position. Loading stops at the first read that fails. */
  class InFile {
    const data: Bytes
    var pos: nat

    ghost predicate Valid()
      reads this
    {
      pos <= |data|
    }

    ghost function Left(): Bytes
      requires Valid()
      reads this
    {
      data[pos..]
    }

    constructor (data: Bytes)
      ensures Valid() && Left() == data && this.data == data && pos == 0
    {
      this.data, pos := data, 0;
    }

    method ReadWord(w: nat) returns (ok: bool, n: nat)
      requires Valid()
      modifies this
      ensures Valid()
      ensures match GetWord(old(Left()), w)
              case Bad => !ok
              case Got(v, rest) => ok && n == v && Left() == rest
    {
      n := 0;
      if |data| - pos < w {
        return false, 0;
      }
      var word := data[pos..pos + w];
      assert Left()[..w] == word;
      var i := w;
      ghost var all := word;
      while i > 0
        invariant 0 <= i <= w
        invariant n == WordValue(all[i..])
        decreases i
      {
        i := i - 1;
        assert all[i..][1..] == all[i + 1..];
        n := word[i] as int + 256 * n;
      }
      assert all[0..] == all;
      pos := pos + w;
      ok := true;
    }

    method ReadFlag() returns (ok: bool, set_: bool)
      requires Valid()
      modifies this
      ensures Valid()
      ensures match GetFlag(old(Left()))
              case Bad => !ok
              case Got(v, rest) => ok && set_ == v && Left() == rest
    {
      if pos == |data| || data[pos] as int > 1 {
        return false, false;
      }
      ok, set_ := true, data[pos] as int == 1;
      pos := pos + 1;
    }

    method ReadBytes() returns (ok: bool, out: Bytes)
      requires Valid()
      modifies this
      ensures Valid()
      ensures match GetBytes(old(Left()))
              case Bad => !ok
              case Got(v, rest) => ok && out == v && Left() == rest
    {
      hide GetWord;
      out := [];
      var remaining := |data| - pos;
      var len;
      ok, len := ReadWord(4);
      if !ok {
        return;
      }
      if len > remaining || len > |data| - pos {
        return false, [];
      }
      out := data[pos..pos + len];
      assert Left()[..len] == out;
      pos := pos + len;
    }

    method ReadList() returns (ok: bool, v: Value)
      requires Valid()
      modifies this
      ensures Valid()
      ensures match GetList(old(Left()))
              case Bad => !ok
              case Got(value, rest) => ok && v == value && Left() == rest
    {
      hide GetWord, GetBytes;
      v := List([]);
      var n;
      ok, n := ReadWord(4);
      if !ok {
        return;
      }
      ghost var start := Left();
      var items: seq<Bytes> := [];
      var j := 0;
      ItemsStart(start, n);
      while j < n
        invariant 0 <= j <= n && Valid()
        invariant GetAll(start, n) == WithItems(items, GetAll(Left(), n - j))
      {
        var item;
        ok, item := ReadBytes();
        if !ok {
          return;
        }
        ItemsStep(items, item, GetAll(Left(), n - j - 1));
        items := items + [item];
        j := j + 1;
      }
      assert items + [] == items;
      return true, List(items);
    }

    method ReadEntry() returns (ok: bool, e: Entry)
      requires Valid()
      modifies this
      ensures Valid()
      ensures match GetEntry(old(Left()))
              case Bad => !ok
              case Got(v, rest) => ok && e == v && Left() == rest
    {
      hide GetWord, GetBytes, GetFlag, GetList;
      e := Entry([], Str([]), None);
      var isList, key, hasTtl;
      ok, isList := ReadFlag();
      if !ok {
        return;
      }
      ok, key := ReadBytes();
      if !ok {
        return;
      }
      ok, hasTtl := ReadFlag();
      if !ok {
        return;
      }
      var at: Option<int> := None;
      if hasTtl {
        var n;
        ok, n := ReadWord(8);
        if !ok {
          return;
        }
        at := Some(Signed(n));
      }
      if isList {
        var v;
        ok, v := ReadList();
        e := Entry(key, v, at);
      } else {
        var s;
        ok, s := ReadBytes();
        e := Entry(key, Str(s), at);
      }
    }
  }

  /** A list read with some items already taken. */
  function WithItems(items: seq<Bytes>, g: Got<seq<Bytes>>): Got<seq<Bytes>> {
    match g
    case Bad => Bad
    case Got(more, end) => Got(items + more, end)
  }

  lemma ItemsStart(b: Bytes, n: nat)
    ensures GetAll(b, n) == WithItems([], GetAll(b, n))
  {
    if GetAll(b, n).Got? {
      assert [] + GetAll(b, n).value == GetAll(b, n).value;
    }
  }

  lemma ItemsStep(items: seq<Bytes>, item: Bytes, g: Got<seq<Bytes>>)
    ensures WithItems(items, WithItems([item], g)) == WithItems(items + [item], g)
  {
    if g.Got? {
      AppendAssoc(items, [item], g.value);
    }
  }

  /** Writes every entry in the map's iteration order. */
  method SaveSnapshot(db: Db.Db, expiry: Expiry.ExpiryManager, order: seq<Bytes>) returns (file: Bytes)
    requires expiry.Valid() && Enumerates(order, db.entries.Keys)
    requires forall k :: k in expiry.Table() ==> InI64(expiry.Table()[k])
    ensures var s := Store(db.entries, expiry.Table());
            && (forall k :: k in order ==> k in s.db)
            && AllTimed(EntriesOf(s, order))
            && file == Save(EntriesOf(s, order))
  {
    hide Word, PutEntry, Expiry.Consistent, Expiry.TableOf;
    ghost var s := Store(db.entries, expiry.Table());
    assert forall k :: k in order <==> k in (set j | j in order);
    ghost var es := EntriesOf(s, order);
    file := MAGIC + Word(|order|, 8);
    var i := 0;
    assert es[0..] == es;
    while i < |order|
      invariant 0 <= i <= |order|
      invariant file + PutEntries(es[i..]) == Save(es)
    {
      var key := order[i];
      var v := db.entries[key];
      var at := expiry.ExpiryAt(key);
      assert es[i] == Entry(key, v, at) && Timed(es[i]);
      var bytes := EntryBytes(key, v, at);
      assert es[i..][1..] == es[i + 1..];
      AppendAssoc(file, PutEntry(es[i]), PutEntries(es[i + 1..]));
      file := file + bytes;
      i := i + 1;
    }
    assert es[i..] == [] && file + [] == file;
  }

  /** One entry, field by field; a list element by element. */
  method EntryBytes(key: Bytes, v: Value, at: Option<int>) returns (out: Bytes)
    requires at.Some? ==> InI64(at.value)
    ensures out == PutEntry(Entry(key, v, at))
  {
    hide Word, PutAll;
    out := TypeByte(v);
    out := out + PutBytes(key);
    out := out + PutDeadline(at);
    match v {
      case Str(s) => out := out + PutBytes(s);
      case List(items) =>
        var body := ListBytes(items);
        out := out + body;
    }
  }

  method ListBytes(items: seq<Bytes>) returns (out: Bytes)
    ensures out == Word(|items|, 4) + PutAll(items)
  {
    hide Word, PutBytes;
    var head := Word(|items|, 4);
    out := [];
    var j := 0;
    assert items[0..] == items;
    assert [] + PutAll(items) == PutAll(items);
    while j < |items|
      invariant 0 <= j <= |items|
      invariant out + PutAll(items[j..]) == PutAll(items)
    {
      assert items[j..][1..] == items[j + 1..];
      AppendAssoc(out, PutBytes(items[j]), PutAll(items[j + 1..]));
      out := out + PutBytes(items[j]);
      j := j + 1;
    }
    assert items[j..] == [] && out + [] == out;
    out := head + out;
  }

  /** Loads a snapshot over the objects; success restores every entry of the file in order. */
  method LoadSnapshot(db: Db.Db, expiry: Expiry.ExpiryManager, file: Bytes) returns (ok: bool)
    requires expiry.Valid()
    modifies db, expiry
    ensures expiry.Valid()
    ensures ok == Load(file).Got?
    ensures ok ==> var before := old(Store(db.entries, expiry.Table()));
                   Store(db.entries, expiry.Table()) == RestoreAll(before, Load(file).value)
  {
    hide GetWord, GetEntries, RestoreAll;
    var f := new InFile(file);
    if |file| < 4 || file[..4] != MAGIC {
      return false;
    }
    f.pos := 4;
    assert f.Left() == file[4..];
    var count;
    ok, count := f.ReadWord(8);
    if !ok {
      return;
    }
    ok := LoadEntries(f, count, db, expiry);
  }

  /** The loop of load_snapshot: each entry is restored as soon as it is read. */
  method LoadEntries(f: InFile, count: nat, db: Db.Db, expiry: Expiry.ExpiryManager) returns (ok: bool)
    requires f.Valid() && expiry.Valid()
    modifies f, db, expiry
    ensures expiry.Valid()
    ensures ok == GetEntries(old(f.Left()), count).Got?
    ensures ok ==> var read := GetEntries(old(f.Left()), count).value;
                   Store(db.entries, expiry.Table()) == RestoreAll(old(Store(db.entries, expiry.Table())), read)
  {
    hide GetEntry, RestoreAll, Expiry.Consistent, Expiry.TableOf;
    ghost var start := f.Left();
    ghost var base := Store(db.entries, expiry.Table());
    ghost var done: seq<Entry> := [];
    EntriesStart(start, count);
    RestoreNone(base);
    var i := 0;
    while i < count
      invariant 0 <= i <= count && f.Valid() && expiry.Valid()
      invariant GetEntries(start, count) == WithEntries(done, GetEntries(f.Left(), count - i))
      invariant Store(db.entries, expiry.Table()) == RestoreAll(base, done)
    {
      var e;
      ok, e := f.ReadEntry();
      if !ok {
        return;
      }
      db.RestoreEntry(e.key, e.value);
      if e.at.Some? {
        expiry.SetExpiry(e.key, e.at.value);
      }
      EntriesStep(done, e, GetEntries(f.Left(), count - i - 1));
      RestoreSnoc(base, done, e);
      done := done + [e];
      i := i + 1;
    }
    assert done + [] == done;
    ok := true;
  }

  lemma RestoreNone(s: Store)
    ensures RestoreAll(s, []) == s
  {
  }

  function WithEntries(done: seq<Entry>, g: Got<seq<Entry>>): Got<seq<Entry>> {
    match g
    case Bad => Bad
    case Got(more, end) => Got(done + more, end)
  }

  lemma EntriesStart(b: Bytes, n: nat)
    ensures GetEntries(b, n) == WithEntries([], GetEntries(b, n))
  {
    if GetEntries(b, n).Got? {
      assert [] + GetEntries(b, n).value == GetEntries(b, n).value;
    }
  }

  lemma EntriesStep(done: seq<Entry>, e: Entry, g: Got<seq<Entry>>)
    ensures WithEntries(done, WithEntries([e], g)) == WithEntries(done + [e], g)
  {
    if g.Got? {
      AppendAssoc(done, [e], g.value);
    }
  }

  lemma {:induction false} RestoreSnoc(s: Store, es: seq<Entry>, e: Entry)
    ensures RestoreAll(s, es + [e]) == Restore(RestoreAll(s, es), e)
    decreases |es|
  {
    if es == [] {
      assert [] + [e] == [e];
      assert [e][1..] == [];
    } else {
      assert (es + [e])[1..] == es[1..] + [e];
      RestoreSnoc(Restore(s, es[0]), es[1..], e);
    }
  }
}
