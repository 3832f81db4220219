/**
 The request stream as text: what blank lines, typed lines, array headers and bulk strings
 mean to the parser, whatever follows them, and which of them it refuses.
 */
module Lines {
  import opened Base
  import opened Decimal
  import opened RespParser

  /** Both ways a line may end. */
  predicate LineEnd(e: Bytes) {
    e == "\r\n" || e == "\n"
  }

  /** The line, ended by e, is read as itself: no newline in it, and no carriage return that is taken for the end. */
  predicate Readable(line: Bytes, e: Bytes) {
    LineEnd(e) && '\n' !in line && (e == "\n" && line != [] ==> line[|line| - 1] != '\r')
  }

  lemma LineTaken(line: Bytes, e: Bytes, rest: Bytes)
    requires Readable(line, e)
    ensures var buf := line + e + rest;
            var nl := NewlineAt(buf);
            nl + 1 == |line + e| <= |buf| && StripCr(buf[..nl]) == line && buf[nl + 1..] == rest
  {
    var buf := line + e + rest;
    var nl := |line + e| - 1;
    if e == "\n" {
      assert buf[nl] == '\n' && buf[..nl] == line;
    } else {
      assert buf == line + "\r" + "\n" + rest;
      assert buf[nl] == '\n' && buf[..nl] == line + "\r";
      assert (line + "\r")[..|line|] == line;
    }
    NewlineUnique(buf, nl);
  }

  /** What a complete line does between frames, whatever follows it. */
  lemma RunLine(max: nat, line: Bytes, e: Bytes, rest: Bytes)
    requires Readable(line, e)
    ensures var m := LineMove(max, line, |line + e|);
            && (m.Advance? ==> Run(max, Line, line + e + rest) == Prepend(m.out, Run(max, m.mode, rest)))
            && (m.Bad? ==> Run(max, Line, line + e + rest) == Failed(m.error, Line, rest))
            && !m.Stuck?
  {
    hide LineMove;
    LineTaken(line, e, rest);
    LineMoves(max, line, |line + e|);
  }

  lemma LineMoves(max: nat, line: Bytes, used: nat)
    ensures var m := LineMove(max, line, used);
            !m.Stuck? && (m.Advance? ==> m.used == used) && (m.Bad? ==> m.skip == used)
  {
  }

  // ---- typed lines ---------------------------------------------------------

  predicate Blank(s: Bytes) {
    forall i :: 0 <= i < |s| ==> s[i] == ' ' || s[i] == '\t'
  }

  lemma {:induction false} SkipBlanks(gap: Bytes, tail: Bytes)
    requires Blank(gap)
    ensures Words(gap + tail) == Words(tail)
  {
    if gap == [] {
      assert gap + tail == tail;
    } else {
      assert (gap + tail)[1..] == gap[1..] + tail;
      SkipBlanks(gap[1..], tail);
    }
  }

  lemma FirstWord(w: Bytes, tail: Bytes)
    requires IsWord(w) && (tail != [] ==> IsSpace(tail[0]))
    ensures Words(w + tail) == [w] + Words(tail)
  {
    var line := w + tail;
    assert line[0..] == line && line[0..|w|] == w && line[|w|..] == tail;
    WordsTake(line, 0, |w|);
  }

  /** An empty line, or one of spaces and tabs only, yields no command and no error. */
  lemma BlankLine(max: nat, blanks: Bytes, e: Bytes, rest: Bytes)
    requires Blank(blanks) && LineEnd(e)
    ensures Run(max, Line, blanks + e + rest) == Run(max, Line, rest)
  {
    hide Run, Words;
    RunLine(max, blanks, e, rest);
    SkipBlanks(blanks, []);
    assert blanks + [] == blanks;
    NoWords();
    PrependTwice([], [], Run(max, Line, rest));
  }

  /** Words with something between, before and after them. */
  function Spaced(gaps: seq<Bytes>, words: seq<Bytes>): Bytes
    requires |gaps| == |words| + 1
  {
    if words == [] then gaps[0] else gaps[0] + words[0] + Spaced(gaps[1..], words[1..])
  }

  /** Spaces and tabs, at least one of them between two words. */
  predicate Gaps(gaps: seq<Bytes>, n: nat) {
    && |gaps| == n + 1
    && (forall i :: 0 <= i <= n ==> Blank(gaps[i]))
    && (forall i :: 0 < i < n ==> gaps[i] != [])
  }

  predicate AllWords(words: seq<Bytes>) {
    forall i :: 0 <= i < |words| ==> IsWord(words[i]) && '\n' !in words[i]
  }

  lemma {:induction false} SpacedWords(gaps: seq<Bytes>, words: seq<Bytes>)
    requires AllWords(words) && Gaps(gaps, |words|)
    ensures Words(Spaced(gaps, words)) == words && '\n' !in Spaced(gaps, words)
    decreases |words|
  {
    hide Words;
    if words == [] {
      SkipBlanks(gaps[0], []);
      assert gaps[0] + [] == gaps[0];
      NoWords();
    } else {
      var tail := Spaced(gaps[1..], words[1..]);
      assert Gaps(gaps[1..], |words| - 1) by {
        assert forall i :: 0 <= i < |words| ==> gaps[1..][i] == gaps[i + 1];
      }
      SpacedWords(gaps[1..], words[1..]);
      assert tail != [] ==> IsSpace(tail[0]) by {
        SpacedStart(gaps[1..], words[1..]);
        assert gaps[1..][0] == gaps[1];
      }
      FirstWord(words[0], tail);
      SkipBlanks(gaps[0], words[0] + tail);
      assert gaps[0] + words[0] + tail == gaps[0] + (words[0] + tail);
    }
  }

  lemma SpacedStart(gaps: seq<Bytes>, words: seq<Bytes>)
    requires |gaps| == |words| + 1
    ensures gaps[0] <= Spaced(gaps, words) && (words == [] ==> Spaced(gaps, words) == gaps[0])
    ensures words != [] ==> gaps[0] + words[0] <= Spaced(gaps, words)
  {
  }

  /**
   A typed line yields exactly its words, however they are spaced and however many there are,
   and parsing goes on after it. Only a star in the very first column makes it something else.
   */
  lemma TypedLine(max: nat, gaps: seq<Bytes>, words: seq<Bytes>, e: Bytes, rest: Bytes)
    requires words != [] && AllWords(words) && Gaps(gaps, |words|)
    requires Readable(Spaced(gaps, words), e) && Spaced(gaps, words)[..1] != "*"
    ensures Run(max, Line, Spaced(gaps, words) + e + rest) == Prepend([words], Run(max, Line, rest))
  {
    hide Run, Words;
    var line := Spaced(gaps, words);
    SpacedStart(gaps, words);
    SpacedWords(gaps, words);
    RunLine(max, line, e, rest);
  }

  // ---- array headers -------------------------------------------------------

  /** A header of a star and any text: an array, nothing at all, or an error. */
  lemma ArrayHeader(max: nat, text: Bytes, e: Bytes, rest: Bytes)
    requires Readable("*" + text, e)
    ensures var p, n := Run(max, Line, "*" + text + e + rest), ParseI64(text);
            && (n.None? ==> p == Failed("ERR Protocol error: invalid multibulk length", Line, rest))
            && (n.Some? && n.value > 1048576 ==>
                  p == Failed("ERR Protocol error: invalid multibulk length", Line, rest))
            && (n.Some? && n.value > max ==>
                  p == Failed("ERR Protocol error: invalid multibulk length", Line, rest))
            && (n.Some? && n.value <= 0 ==> p == Run(max, Line, rest))
            && (n.Some? && 1 <= n.value <= 1048576 && n.value <= max ==>
                  p == Run(max, BulkHead(n.value, []), rest))
  {
    hide Run;
    RunLine(max, "*" + text, e, rest);
    assert ("*" + text)[1..] == text;
    var n := ParseI64(text);
    PrependTwice([], [], Run(max, Line, rest));
    if n.Some? {
      PrependTwice([], [], Run(max, BulkHead(n.value, []), rest));
    }
  }

  // ---- bulk strings --------------------------------------------------------

  /** Where a bulk string is due, a header line that is none, or has no length that fits, is refused. */
  lemma BulkHeader(max: nat, argc: int, args: Command, line: Bytes, e: Bytes, rest: Bytes)
    requires |args| != argc && Readable(line, e)
    ensures var p := Run(max, BulkHead(argc, args), line + e + rest);
            if line == [] || line[0] != '$' then
              p == Failed("ERR Protocol error: expected '$', got something else", BulkHead(argc, args), rest)
            else
              var n := ParseI64(line[1..]);
              if n.None? || n.value < 0 || n.value + 2 > max then
                p == Failed("ERR Protocol error: invalid bulk length", BulkHead(argc, args), rest)
              else p == Run(max, BulkBody(argc, args, n.value), rest)
  {
    LineTaken(line, e, rest);
    if line != [] && line[0] == '$' {
      var n := ParseI64(line[1..]);
      if n.Some? && n.value >= 0 {
        PrependTwice([], [], Run(max, BulkBody(argc, args, n.value), rest));
      }
    }
  }

  /** A payload is any bytes of the announced length, and has to be followed by CRLF. */
  lemma BulkPayload(max: nat, argc: int, args: Command, payload: Bytes, end: Bytes, rest: Bytes)
    requires |end| == 2
    ensures var p := Run(max, BulkBody(argc, args, |payload|), payload + end + rest);
            if end == CRLF then p == Run(max, BulkHead(argc, args + [payload]), rest)
            else p == Failed("ERR Protocol error: bulk payload not terminated by CRLF",
                             BulkBody(argc, args, |payload|), payload + end + rest)
  {
    var n := |payload|;
    var buf := payload + end + rest;
    assert buf[..n] == payload && buf[n] == end[0] && buf[n + 1] == end[1] && buf[n + 2..] == rest;
    assert end == [end[0], end[1]];
    assert buf[0..] == buf;
    PrependTwice([], [], Run(max, BulkHead(argc, args + [payload]), rest));
  }

  /** A bulk string as sent: its length spelled somehow, a line end of either kind, the payload. */
  datatype Part = Part(length: Bytes, end: Bytes, payload: Bytes)

  predicate Sent(max: nat, part: Part) {
    LineEnd(part.end) && ParseI64(part.length) == Some(|part.payload|) && |part.payload| + 2 <= max
  }

  function PartText(part: Part): Bytes {
    "$" + part.length + part.end + part.payload + CRLF
  }

  function PartsText(parts: seq<Part>): Bytes {
    if parts == [] then [] else PartText(parts[0]) + PartsText(parts[1..])
  }

  function Payloads(parts: seq<Part>): (cmd: Command)
    ensures |cmd| == |parts|
  {
    seq(|parts|, i requires 0 <= i < |parts| => parts[i].payload)
  }

  lemma PartRead(max: nat, argc: int, args: Command, part: Part, rest: Bytes)
    requires Sent(max, part) && |args| != argc
    ensures Run(max, BulkHead(argc, args), PartText(part) + rest)
         == Run(max, BulkHead(argc, args + [part.payload]), rest)
  {
    hide Run;
    var line, more := "$" + part.length, part.payload + CRLF + rest;
    assert PartText(part) + rest == line + part.end + more;
    NumbersReadable('$', part.length, part.end);
    assert line[1..] == part.length;
    BulkHeader(max, argc, args, line, part.end, more);
    BulkPayload(max, argc, args, part.payload, CRLF, rest);
  }

  /** A header with a number in it is a line. */
  lemma NumbersReadable(tag: char, text: Bytes, e: Bytes)
    requires ParseI64(text).Some? && LineEnd(e) && tag != '\n'
    ensures Readable([tag] + text, e)
  {
    var line := [tag] + text;
    assert forall i :: 0 <= i < |text| ==> text[i] == '-' || IsDigit(text[i]) by {
      var digits := if text[0] == '-' then text[1..] else text;
      assert forall i :: 0 <= i < |digits| ==> IsDigit(digits[i]);
      assert text[0] == '-' ==> forall i :: 0 < i < |text| ==> text[i] == digits[i - 1];
    }
    assert forall i :: 0 < i < |line| ==> line[i] == text[i - 1];
  }

  lemma {:induction false} PartsRead(max: nat, args: Command, parts: seq<Part>, rest: Bytes)
    requires forall i :: 0 <= i < |parts| ==> Sent(max, parts[i])
    ensures Run(max, BulkHead(|args| + |parts|, args), PartsText(parts) + rest)
         == Prepend([args + Payloads(parts)], Run(max, Line, rest))
    decreases |parts|
  {
    hide Run, PartText, Sent;
    if parts == [] {
      assert args + Payloads(parts) == args && PartsText(parts) + rest == rest;
      FrameDone(max, args, rest);
    } else {
      var more := PartsText(parts[1..]) + rest;
      assert PartsText(parts) + rest == PartText(parts[0]) + more;
      PartRead(max, |args| + |parts|, args, parts[0], more);
      var next := args + [parts[0].payload];
      PartsRead(max, next, parts[1..], rest);
      assert next + Payloads(parts[1..]) == args + Payloads(parts);
    }
  }

  lemma FrameDone(max: nat, args: Command, rest: Bytes)
    ensures Run(max, BulkHead(|args|, args), rest) == Prepend([args], Run(max, Line, rest))
  {
    assert rest[0..] == rest;
  }

  /** An array frame yields exactly its payloads, however its numbers and header lines are spelled. */
  lemma ArrayFrame(max: nat, count: Bytes, e: Bytes, parts: seq<Part>, rest: Bytes)
    requires 1 <= |parts| <= 1048576 && |parts| <= max && ParseI64(count) == Some(|parts|) && LineEnd(e)
    requires forall i :: 0 <= i < |parts| ==> Sent(max, parts[i])
    ensures Run(max, Line, "*" + count + e + PartsText(parts) + rest)
         == Prepend([Payloads(parts)], Run(max, Line, rest))
  {
    hide Run, Sent;
    NumbersReadable('*', count, e);
    assert "*" + count + e + PartsText(parts) + rest == "*" + count + e + (PartsText(parts) + rest);
    ArrayHeader(max, count, e, PartsText(parts) + rest);
    PartsRead(max, [], parts, rest);
    assert [] + Payloads(parts) == Payloads(parts);
  }

  // ---- unfinished input ----------------------------------------------------

  /** A line that does not end waits while it is within the frame limit, and is refused beyond it. */
  lemma EndlessLine(max: nat, line: Bytes)
    requires '\n' !in line
    ensures Feed(max, Residue(Line, []), line) ==
            if |line| <= max then Ok([], Residue(Line, line))
            else ProtocolError("ERR Protocol error: too big inline request", Residue(Line, line))
  {
    assert [] + line == line;
    assert NewlineAt(line) == |line|;
  }
}
