/**
 The options of SET as a client writes them: which lists of words are accepted, what they ask
 for, and which error any other list gets.
 */
module SetWords {
  import opened Base
  import opened Decimal
  import opened Keyspace
  import opened Commands
  import opened Execution
  import opened Logging
  import opened Replies

  /** Only if there is no key, only if there is one, and for so many milliseconds. */
  datatype Wish = IfAbsent | IfPresent | For(ms: int)

  /** The first two words ask for an expiry: in seconds after EX, in milliseconds after PX. */
  predicate AsksFor(words: seq<Bytes>, ms: int) {
    |words| >= 2 && ParseI64(words[1]).Some? &&
    var n := ParseI64(words[1]).value;
    n > 0 && ((Spelled(words[0], "EX") && ms == 1000 * n) || (Spelled(words[0], "PX") && ms == n))
  }

  /** The words are these wishes, in order. */
  predicate Writes(words: seq<Bytes>, wishes: seq<Wish>)
    decreases |words|
  {
    if words == [] || wishes == [] then words == [] && wishes == []
    else
      match wishes[0]
      case IfAbsent => Spelled(words[0], "NX") && Writes(words[1..], wishes[1..])
      case IfPresent => Spelled(words[0], "XX") && Writes(words[1..], wishes[1..])
      case For(ms) => AsksFor(words, ms) && Writes(words[2..], wishes[1..])
  }

  predicate Timed(wishes: seq<Wish>) {
    exists i :: 0 <= i < |wishes| && wishes[i].For?
  }

  /** Not both NX and XX, and at most one expiry, counting what was read before. */
  predicate Agree(wishes: seq<Wish>, nx: bool, xx: bool, timed: bool) {
    && !((nx || IfAbsent in wishes) && (xx || IfPresent in wishes))
    && (timed ==> !Timed(wishes))
    && (forall i, j :: 0 <= i < j < |wishes| ==> !(wishes[i].For? && wishes[j].For?))
  }

  /** The expiry asked for, if any. */
  function Expiry(wishes: seq<Wish>): Option<int> {
    if wishes == [] then None
    else if wishes[0].For? then Some(wishes[0].ms)
    else Expiry(wishes[1..])
  }

  lemma WishFirst(wishes: seq<Wish>, nx: bool, xx: bool, timed: bool)
    requires wishes != []
    ensures var w, rest := wishes[0], wishes[1..];
            && (forall x :: x in wishes <==> x == w || x in rest)
            && (Timed(wishes) <==> w.For? || Timed(rest))
            && (Agree(wishes, nx, xx, timed) <==>
                !(w.For? && timed) && Agree(rest, nx || w.IfAbsent?, xx || w.IfPresent?, timed || w.For?))
  {
    var w, rest := wishes[0], wishes[1..];
    assert forall i :: 0 <= i < |rest| ==> rest[i] == wishes[i + 1];
    if Timed(rest) {
      var i :| 0 <= i < |rest| && rest[i].For?;
      assert wishes[i + 1].For?;
    }
  }

  lemma {:induction false} ExpiryTimed(wishes: seq<Wish>)
    ensures Expiry(wishes).Some? <==> Timed(wishes)
  {
    if wishes != [] {
      WishFirst(wishes, false, false, false);
      ExpiryTimed(wishes[1..]);
    }
  }

  lemma OptionNames(word: Bytes)
    ensures Spelled(word, "NX") <==> Upper(word) == "NX"
    ensures Spelled(word, "XX") <==> Upper(word) == "XX"
    ensures Spelled(word, "EX") <==> Upper(word) == "EX"
    ensures Spelled(word, "PX") <==> Upper(word) == "PX"
  {
    SpelledUpper(word, "NX");
    SpelledUpper(word, "XX");
    SpelledUpper(word, "EX");
    SpelledUpper(word, "PX");
  }

  /** Reading words that write wishes which agree collects the wishes. */
  lemma {:induction false} WishesRead(cmd: Command, i: nat, j: nat, wishes: seq<Wish>,
                                      nx: bool, xx: bool, ms: Option<int>)
    requires i <= j <= |cmd| && Writes(cmd[i..j], wishes) && Agree(wishes, nx, xx, ms.Some?)
    ensures ScanSetOptions(cmd, i, nx, xx, ms) ==
            ScanSetOptions(cmd, j, nx || IfAbsent in wishes, xx || IfPresent in wishes,
                           if ms.Some? then ms else Expiry(wishes))
    decreases |wishes|
  {
    hide Spelled, Upper, ParseI64;
    var words := cmd[i..j];
    if wishes == [] {
      assert i == j;
    } else {
      var w, rest := wishes[0], wishes[1..];
      OptionNames(cmd[i]);
      WishFirst(wishes, nx, xx, ms.Some?);
      ExpiryTimed(rest);
      if w.For? {
        assert words[2..] == cmd[i + 2..j] && words[1] == cmd[i + 1];
        WishesRead(cmd, i + 2, j, rest, nx, xx, Some(w.ms));
      } else {
        assert words[1..] == cmd[i + 1..j];
        WishesRead(cmd, i + 1, j, rest, nx || w.IfAbsent?, xx || w.IfPresent?, ms);
      }
    }
  }

  /** And what is accepted was written by wishes that agree. */
  lemma {:induction false} AcceptedWrites(cmd: Command, i: nat, nx: bool, xx: bool, ms: Option<int>)
    returns (wishes: seq<Wish>)
    requires i <= |cmd| && !(nx && xx) && ScanSetOptions(cmd, i, nx, xx, ms).Options?
    ensures Writes(cmd[i..], wishes) && Agree(wishes, nx, xx, ms.Some?)
    decreases |cmd| - i
  {
    hide Spelled, Upper, ParseI64;
    wishes := [];
    if i < |cmd| {
      var words, opt := cmd[i..], Upper(cmd[i]);
      OptionNames(cmd[i]);
      var w, rest;
      if opt == "NX" && !xx {
        rest := AcceptedWrites(cmd, i + 1, true, xx, ms);
        w := IfAbsent;
      } else if opt == "XX" && !nx {
        rest := AcceptedWrites(cmd, i + 1, nx, true, ms);
        w := IfPresent;
      } else {
        var n := ParseI64(cmd[i + 1]).value;
        w := For(if opt == "EX" then n * 1000 else n);
        rest := AcceptedWrites(cmd, i + 2, nx, xx, Some(w.ms));
      }
      wishes := [w] + rest;
      assert wishes[1..] == rest && words[1..] == cmd[i + 1..];
      assert w.For? ==> words[2..] == cmd[i + 2..];
      WishFirst(wishes, nx, xx, ms.Some?);
    }
  }

  // ---- what SET does -------------------------------------------------------

  /** SET with options that agree: declined by NX or XX, or the string is stored with the expiry asked for, or none. */
  lemma SetReply(now: int, order: seq<Bytes>, s: Store, cmd: Command, wishes: seq<Wish>)
    requires WellFormed(s) && |cmd| >= 3 && Called(cmd, SET, |cmd|)
    requires Writes(cmd[3..], wishes) && Agree(wishes, false, false, false)
    ensures var out, k, alive := Perform(now, order, s, cmd), cmd[1], Alive(s, now, cmd[1]);
            if (IfAbsent in wishes && alive) || (IfPresent in wishes && !alive) then
              out.reply == NULL_REPLY && Kept(s, now, k, out.store)
            else
              var at := if Expiry(wishes).Some? then Some(now + Expiry(wishes).value) else None;
              && out.reply == OK_REPLY && OnlyAt(s, k, out.store)
              && At(out.store, k) == Cell(Some(Str(cmd[2])), at)
  {
    hide Perform, Kept, OnlyAt, Spelled, NameOf, Writes, Agree;
    assert cmd[3..|cmd|] == cmd[3..];
    WishesRead(cmd, 3, |cmd|, wishes, false, false, None);
    var op := Set(cmd[2], IfAbsent in wishes, IfPresent in wishes, Expiry(wishes));
    KeyCommand(now, order, s, cmd, SET, cmd[1], op);
  }

  /** Any other list of options is refused with an error, and nothing happens. */
  lemma SetRefused(now: int, order: seq<Bytes>, s: Store, cmd: Command)
    requires WellFormed(s) && |cmd| >= 3 && Called(cmd, SET, |cmd|)
    requires forall wishes :: Writes(cmd[3..], wishes) ==> !Agree(wishes, false, false, false)
    ensures var out := Perform(now, order, s, cmd); out == Outcome(s, out.reply, []) && IsError(out.reply)
  {
    hide Read, Spelled, NameOf, Writes, Agree, ScanSetOptions;
    CalledBy(cmd, SET);
    if ScanSetOptions(cmd, 3, false, false, None).Options? {
      var wishes := AcceptedWrites(cmd, 3, false, false, None);
    }
    SetRejections(cmd, 3, false, false, None);
  }

  const EXPIRE_ERROR: Bytes := "-" + "ERR invalid expire time in 'set' command" + "\r\n"
  const SYNTAX: Bytes := "-" + "ERR syntax error" + "\r\n"

  /** The word at i begins an expiry that could still be given. */
  predicate ExpiryDue(cmd: Command, i: nat, wishes: seq<Wish>)
    requires i < |cmd|
  {
    (Spelled(cmd[i], "EX") || Spelled(cmd[i], "PX")) && !Timed(wishes) && i + 1 < |cmd|
  }

  /** The word at i is NX or XX, and the other one has not been given. */
  predicate ConditionDue(cmd: Command, i: nat, wishes: seq<Wish>)
    requires i < |cmd|
  {
    (Spelled(cmd[i], "NX") && IfPresent !in wishes) || (Spelled(cmd[i], "XX") && IfAbsent !in wishes)
  }

  /** The error depends on the first word that does not fit what was read before it. */
  lemma RefusedBecause(now: int, order: seq<Bytes>, s: Store, cmd: Command, i: nat, wishes: seq<Wish>)
    requires WellFormed(s) && Called(cmd, SET, |cmd|)
    requires 3 <= i < |cmd| && Writes(cmd[3..i], wishes) && Agree(wishes, false, false, false)
    requires ExpiryDue(cmd, i, wishes) ==> ParseI64(cmd[i + 1]).None? || ParseI64(cmd[i + 1]).value <= 0
    requires !ConditionDue(cmd, i, wishes)
    ensures Perform(now, order, s, cmd) ==
            Outcome(s, if !ExpiryDue(cmd, i, wishes) then SYNTAX
                       else if ParseI64(cmd[i + 1]).None? then NUMBER_ERROR else EXPIRE_ERROR, [])
  {
    hide Read, NameOf, Spelled, Upper, ParseI64, Writes, Agree;
    CalledBy(cmd, SET);
    ErrorBytes();
    OptionNames(cmd[i]);
    ExpiryTimed(wishes);
    WishesRead(cmd, 3, i, wishes, false, false, None);
  }
}
