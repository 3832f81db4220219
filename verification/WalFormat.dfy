/**
 The log's record format: one command as a RESP array of bulk strings. The parser
 inverts it, whole or cut anywhere.
 */
module WalFormat {
  import opened Base
  import opened Decimal
  import opened RespWriter
  import opened RespParser

  function EncodeArgs(args: Command): Bytes {
    if args == [] then [] else Bulk(args[0]) + EncodeArgs(args[1..])
  }

  function Encode(cmd: Command): (r: Bytes)
    ensures r != []
  {
    "*" + ToString(|cmd|) + CRLF + EncodeArgs(cmd)
  }

  function EncodeAll(recs: seq<Command>): Bytes {
    if recs == [] then [] else Encode(recs[0]) + EncodeAll(recs[1..])
  }

  lemma {:induction false} EncodeAllAppend(a: seq<Command>, b: seq<Command>)
    ensures EncodeAll(a + b) == EncodeAll(a) + EncodeAll(b)
  {
    if a == [] {
      assert a + b == b;
    } else {
      assert (a + b)[1..] == a[1..] + b;
      EncodeAllAppend(a[1..], b);
      AppendAssoc(Encode(a[0]), EncodeAll(a[1..]), EncodeAll(b));
    }
  }

  lemma EncodeAllOne(cmd: Command)
    ensures EncodeAll([cmd]) == Encode(cmd)
  {
  }

  /** A record the parser accepts under frame limit `max`. */
  predicate Encodable(max: nat, cmd: Command) {
    1 <= |cmd| <= MAX_ARGS && |cmd| <= max && ArgsFit(max, cmd)
  }

  predicate AllEncodable(max: nat, recs: seq<Command>) {
    forall i :: 0 <= i < |recs| ==> Encodable(max, recs[i])
  }

  // ---- reading one header --------------------------------------------------

  /** A header line "<tag><n>CRLF" is found at its newline and stripped to tag and digits. */
  lemma HeaderLine(tag: char, n: nat, rest: Bytes)
    requires tag != '\n'
    ensures var head := [tag] + ToString(n) + CRLF;
            var nl := NewlineAt(head + rest);
            nl == |head| - 1 && StripCr((head + rest)[..nl]) == [tag] + ToString(n)
  {
    var digits := ToString(n);
    var head := [tag] + digits + CRLF;
    var buf := head + rest;
    var nl := |head| - 1;
    assert buf[nl] == '\n';
    assert buf[..nl] == [tag] + digits + "\r";
    assert forall i :: 0 <= i < |digits| ==> IsDigit(digits[i]);
    assert '\n' !in digits;
    assert '\n' !in buf[..nl];
    NewlineUnique(buf, nl);
    assert ([tag] + digits + "\r")[..nl - 1] == [tag] + digits;
  }

  /** A header cut before its newline is not yet a line. */
  lemma HeaderCut(tag: char, n: nat, p: Bytes)
    requires tag != '\n'
    requires p <= [tag] + ToString(n) + CRLF && p != [tag] + ToString(n) + CRLF
    ensures NewlineAt(p) == |p| && |p| <= |ToString(n)| + 2
  {
  }

  // ---- round trip ----------------------------------------------------------

  lemma RunHead(max: nat, cmd: Command, rest: Bytes)
    requires 1 <= |cmd| <= MAX_ARGS && |cmd| <= max
    ensures Run(max, Line, "*" + ToString(|cmd|) + CRLF + rest) == Run(max, BulkHead(|cmd|, []), rest)
  {
    var head := "*" + ToString(|cmd|) + CRLF;
    HeaderLine('*', |cmd|, rest);
    PrintParse(|cmd|);
    assert ("*" + ToString(|cmd|))[1..] == ToString(|cmd|);
    assert Step(max, Line, head + rest) == Advance(|head|, BulkHead(|cmd|, []), []);
    assert (head + rest)[|head|..] == rest;
    PrependTwice([], [], Run(max, BulkHead(|cmd|, []), rest));
  }

  lemma RunBulkHead(max: nat, argc: int, args: Command, len: nat, rest: Bytes)
    requires |args| < argc && len + 2 <= max && InI64(len)
    ensures Run(max, BulkHead(argc, args), "$" + ToString(len) + CRLF + rest)
         == Run(max, BulkBody(argc, args, len), rest)
  {
    var head := "$" + ToString(len) + CRLF;
    HeaderLine('$', len, rest);
    PrintParse(len);
    assert ("$" + ToString(len))[1..] == ToString(len);
    assert Step(max, BulkHead(argc, args), head + rest) == Advance(|head|, BulkBody(argc, args, len), []);
    assert (head + rest)[|head|..] == rest;
    PrependTwice([], [], Run(max, BulkBody(argc, args, len), rest));
  }

  lemma RunBulkBody(max: nat, argc: int, args: Command, a: Bytes, rest: Bytes)
    ensures Run(max, BulkBody(argc, args, |a|), a + CRLF + rest)
         == Run(max, BulkHead(argc, args + [a]), rest)
  {
    var buf := a + CRLF + rest;
    assert buf[..|a|] == a;
    assert Step(max, BulkBody(argc, args, |a|), buf) == Advance(|a| + 2, BulkHead(argc, args + [a]), []);
    assert buf[|a| + 2..] == rest;
    PrependTwice([], [], Run(max, BulkHead(argc, args + [a]), rest));
  }

  /** One bulk argument, whatever bytes it holds, is consumed as one argument. */
  lemma RunBulk(max: nat, argc: int, args: Command, a: Bytes, rest: Bytes)
    requires |args| < argc && |a| + 2 <= max && InI64(|a|)
    ensures Run(max, BulkHead(argc, args), Bulk(a) + rest) == Run(max, BulkHead(argc, args + [a]), rest)
  {
    assert Bulk(a) + rest == "$" + ToString(|a|) + CRLF + (a + CRLF + rest);
    RunBulkHead(max, argc, args, |a|, a + CRLF + rest);
    RunBulkBody(max, argc, args, a, rest);
  }

  lemma RunArgsDone(max: nat, args: Command, rest: Bytes)
    ensures Run(max, BulkHead(|args|, args), rest) == Prepend([args], Run(max, Line, rest))
  {
  }

  lemma RunArgsStep(max: nat, args: Command, more: Command, rest: Bytes)
    requires InI64(max) && more != [] && |more[0]| + 2 <= max
    ensures Run(max, BulkHead(|args| + |more|, args), EncodeArgs(more) + rest)
         == Run(max, BulkHead(|args| + |more|, args + [more[0]]), EncodeArgs(more[1..]) + rest)
  {
    hide Run;
    AppendAssoc(Bulk(more[0]), EncodeArgs(more[1..]), rest);
    RunBulk(max, |args| + |more|, args, more[0], EncodeArgs(more[1..]) + rest);
  }

  lemma {:induction false} RunArgs(max: nat, args: Command, more: Command, rest: Bytes)
    requires InI64(max) && ArgsFit(max, more)
    ensures Run(max, BulkHead(|args| + |more|, args), EncodeArgs(more) + rest)
         == Prepend([args + more], Run(max, Line, rest))
    decreases |more|
  {
    hide Run;
    if more == [] {
      RunArgsDone(max, args, rest);
      assert EncodeArgs(more) + rest == rest;
      assert args + more == args;
    } else {
      RunArgsStep(max, args, more, rest);
      RunArgs(max, args + [more[0]], more[1..], rest);
      assert (args + [more[0]]) + more[1..] == args + more;
    }
  }

  /** Parsing an encoded record followed by anything yields the record, then the rest. */
  lemma RunRecord(max: nat, cmd: Command, rest: Bytes)
    requires InI64(max) && Encodable(max, cmd)
    ensures Run(max, Line, Encode(cmd) + rest) == Prepend([cmd], Run(max, Line, rest))
  {
    var head := "*" + ToString(|cmd|) + CRLF;
    hide Run;
    AppendAssoc(head, EncodeArgs(cmd), rest);
    RunHead(max, cmd, EncodeArgs(cmd) + rest);
    RunArgs(max, [], cmd, rest);
    assert [] + cmd == cmd;
  }

  lemma {:induction false} RunRecords(max: nat, recs: seq<Command>, rest: Bytes)
    requires InI64(max) && AllEncodable(max, recs)
    ensures Run(max, Line, EncodeAll(recs) + rest) == Prepend(recs, Run(max, Line, rest))
  {
    hide Run, Encode;
    if recs == [] {
      assert EncodeAll(recs) + rest == rest;
      PrependTwice([], [], Run(max, Line, rest));
    } else {
      AppendAssoc(Encode(recs[0]), EncodeAll(recs[1..]), rest);
      RunRecord(max, recs[0], EncodeAll(recs[1..]) + rest);
      RunRecords(max, recs[1..], rest);
      PrependTwice([recs[0]], recs[1..], Run(max, Line, rest));
      assert [recs[0]] + recs[1..] == recs;
    }
  }

  // ---- torn records --------------------------------------------------------

  /** A frame limit that leaves room for any header line. */
  predicate RoomyLimit(max: nat) {
    22 <= max && InI64(max)
  }

  lemma HeaderLength(n: nat)
    requires InI64(n)
    ensures |ToString(n)| <= 19
  {
    PowerOfTen();
    PrintedLength(n, 19);
  }

  /** Waiting for more bytes, having found nothing, with a tail within the limit. */
  predicate Waits(max: nat, p: Parsed) {
    p.Parsed? && p.cmds == [] && |p.rest| <= max
  }

  lemma BulkCut(max: nat, argc: int, args: Command, a: Bytes, p: Bytes)
    requires RoomyLimit(max) && |args| < argc && |a| + 2 <= max
    requires p <= Bulk(a) && p != Bulk(a)
    ensures Waits(max, Run(max, BulkHead(argc, args), p))
  {
    var head := "$" + ToString(|a|) + CRLF;
    assert Bulk(a) == head + (a + CRLF);
    HeaderLength(|a|);
    if |p| < |head| {
      assert p == head[..|p|];
      HeaderCut('$', |a|, p);
    } else {
      var body := p[|head|..];
      assert p == head + body;
      RunBulkHead(max, argc, args, |a|, body);
      assert |body| < |a| + 2;
    }
  }

  lemma {:induction false} ArgsCut(max: nat, args: Command, more: Command, p: Bytes)
    requires RoomyLimit(max) && ArgsFit(max, more)
    requires p <= EncodeArgs(more) && p != EncodeArgs(more)
    ensures Waits(max, Run(max, BulkHead(|args| + |more|, args), p))
    decreases |more|
  {
    hide Run;
    var argc := |args| + |more|;
    var a := more[0];
    if |p| < |Bulk(a)| {
      PrefixWithin(Bulk(a), EncodeArgs(more[1..]), p);
      BulkCut(max, argc, args, a, p);
    } else {
      var q := p[|Bulk(a)|..];
      PrefixBeyond(Bulk(a), EncodeArgs(more[1..]), p);
      RunBulk(max, argc, args, a, q);
      ArgsCut(max, args + [a], more[1..], q);
    }
  }

  lemma WaitsForLine(max: nat, p: Bytes)
    requires NewlineAt(p) == |p| <= max
    ensures Waits(max, Run(max, Line, p))
  {
  }

  /** A record cut anywhere looks incomplete: never an error, never a command. */
  lemma RecordCut(max: nat, cmd: Command, p: Bytes)
    requires RoomyLimit(max) && Encodable(max, cmd)
    requires p <= Encode(cmd) && p != Encode(cmd)
    ensures Waits(max, Run(max, Line, p))
  {
    hide Run, Waits;
    var head := "*" + ToString(|cmd|) + CRLF;
    HeaderLength(|cmd|);
    if |p| < |head| {
      PrefixWithin(head, EncodeArgs(cmd), p);
      HeaderCut('*', |cmd|, p);
      WaitsForLine(max, p);
    } else {
      var q := p[|head|..];
      PrefixBeyond(head, EncodeArgs(cmd), p);
      RunHead(max, cmd, q);
      ArgsCut(max, [], cmd, q);
    }
  }

  /** How many records are complete in the first n bytes of their encoding. */
  function CompleteIn(recs: seq<Command>, n: nat): (k: nat)
    ensures k <= |recs|
  {
    if recs == [] || n < |Encode(recs[0])| then 0
    else 1 + CompleteIn(recs[1..], n - |Encode(recs[0])|)
  }

  /** The count is the largest k whose records fit in n bytes. */
  lemma {:induction false} CompleteInIsLargest(recs: seq<Command>, n: nat, k: nat)
    requires k <= |recs|
    ensures |EncodeAll(recs[..k])| <= n <==> k <= CompleteIn(recs, n)
  {
    hide Encode;
    if k > 0 {
      assert recs[..k][1..] == recs[1..][..k - 1] && recs[..k][0] == recs[0];
      if n >= |Encode(recs[0])| {
        CompleteInIsLargest(recs[1..], n - |Encode(recs[0])|, k - 1);
      }
    }
  }

  lemma RunNothing(max: nat)
    ensures Run(max, Line, []) == Parsed([], Line, [])
  {
  }

  /** Torn tail: any byte prefix of a log parses to exactly its complete records. */
  lemma {:induction false} TornTail(max: nat, recs: seq<Command>, file: Bytes)
    requires RoomyLimit(max) && AllEncodable(max, recs)
    requires file <= EncodeAll(recs)
    ensures var p := Run(max, Line, file);
            var k := CompleteIn(recs, |file|);
            p.Parsed? && p.cmds == recs[..k] && |p.rest| <= max && EncodeAll(recs[..k]) <= file
  {
    hide Run, Encode;
    var k := CompleteIn(recs, |file|);
    if recs == [] {
      RunNothing(max);
    } else {
      var r := Encode(recs[0]);
      if k == 0 {
        PrefixWithin(r, EncodeAll(recs[1..]), file);
        RecordCut(max, recs[0], file);
      } else {
        var rest := file[|r|..];
        PrefixBeyond(r, EncodeAll(recs[1..]), file);
        TornTail(max, recs[1..], rest);
        RunRecord(max, recs[0], rest);
        assert recs[..k] == [recs[0]] + recs[1..][..k - 1];
        assert recs[..k][1..] == recs[1..][..k - 1];
      }
    }
  }

  lemma WholeLog(max: nat, recs: seq<Command>, all: Bytes)
    requires RoomyLimit(max) && AllEncodable(max, recs) && all == EncodeAll(recs)
    ensures Feed(max, Residue(Line, []), all) == Ok(recs, Residue(Line, []))
  {
    hide Run, Encode;
    RunRecords(max, recs, []);
    RunNothing(max);
    assert all + [] == all && [] + all == all && recs + [] == recs;
  }

  lemma TailFitsInLog(max: nat, recs: seq<Command>, part: Bytes)
    requires RoomyLimit(max) && AllEncodable(max, recs) && part <= EncodeAll(recs)
    ensures TailFits(max, Residue(Line, []), part)
  {
    hide Run;
    TornTail(max, recs, part);
    assert [] + part == part;
  }

  /** Round trip under any chunking: no error, and exactly the commands that were encoded. */
  lemma RoundTrip(max: nat, recs: seq<Command>, chunks: seq<Bytes>)
    requires RoomyLimit(max) && AllEncodable(max, recs)
    requires Flatten(chunks) == EncodeAll(recs)
    ensures FeedAll(max, Residue(Line, []), chunks) == Ok(recs, Residue(Line, []))
  {
    hide Run, EncodeAll, Encode;
    var st := Residue(Line, []);
    assert Settled(max, st);
    WholeLog(max, recs, Flatten(chunks));
    forall i | 0 <= i <= |chunks|
      ensures TailFits(max, st, Flatten(chunks[..i]))
    {
      FlattenAppend(chunks[..i], chunks[i..]);
      assert chunks == chunks[..i] + chunks[i..];
      assert Flatten(chunks[..i]) <= EncodeAll(recs);
      TailFitsInLog(max, recs, Flatten(chunks[..i]));
    }
    WholeIsPiecewise(max, st, chunks);
  }

  // ---- exactly which records read back -------------------------------------

  /** A record with too many arguments is refused at its first line, whatever follows. */
  lemma HeadRefused(max: nat, n: nat, rest: Bytes)
    requires n > MAX_ARGS || n > max
    ensures Run(max, Line, "*" + ToString(n) + CRLF + rest).Failed?
  {
    HeaderLine('*', n, rest);
    PrintParse(n);
    assert ("*" + ToString(n))[1..] == ToString(n);
  }

  /** A record without arguments reads back as nothing. */
  lemma EmptyRecord(max: nat, rest: Bytes)
    ensures Run(max, Line, Encode([]) + rest) == Run(max, Line, rest)
  {
    var head := "*" + ToString(0) + CRLF;
    HeaderLine('*', 0, rest);
    PrintParse(0);
    assert ("*" + ToString(0))[1..] == ToString(0);
    assert Encode([]) == head + [] == head;
    assert Step(max, Line, head + rest) == Advance(|head|, Line, []);
    assert (head + rest)[|head|..] == rest;
    PrependTwice([], [], Run(max, Line, rest));
  }

  lemma BulkRefused(max: nat, argc: int, args: Command, a: Bytes, rest: Bytes)
    requires |args| < argc && |a| + 2 > max
    ensures Run(max, BulkHead(argc, args), Bulk(a) + rest).Failed?
  {
    hide NewlineAt, ToString;
    var tail := a + CRLF + rest;
    assert Bulk(a) + rest == "$" + ToString(|a|) + CRLF + tail;
    HeaderLine('$', |a|, tail);
    PrintParse(|a|);
    assert ("$" + ToString(|a|))[1..] == ToString(|a|);
  }

  lemma {:induction false} ArgsRefused(max: nat, args: Command, more: Command, rest: Bytes)
    requires InI64(max) && !ArgsFit(max, more)
    ensures Run(max, BulkHead(|args| + |more|, args), EncodeArgs(more) + rest).Failed?
    decreases |more|
  {
    hide Run, Bulk;
    var tail := EncodeArgs(more[1..]) + rest;
    AppendAssoc(Bulk(more[0]), EncodeArgs(more[1..]), rest);
    if |more[0]| + 2 > max {
      BulkRefused(max, |args| + |more|, args, more[0], tail);
    } else {
      RunArgsStep(max, args, more, rest);
      assert more == [more[0]] + more[1..];
      ArgsRefused(max, args + [more[0]], more[1..], rest);
    }
  }

  /** A record outside the limits is refused, whatever follows. */
  lemma RecordRefused(max: nat, cmd: Command, rest: Bytes)
    requires InI64(max) && cmd != [] && !Encodable(max, cmd)
    ensures Run(max, Line, Encode(cmd) + rest).Failed?
  {
    hide Run;
    var head := "*" + ToString(|cmd|) + CRLF;
    AppendAssoc(head, EncodeArgs(cmd), rest);
    if |cmd| > MAX_ARGS || |cmd| > max {
      HeadRefused(max, |cmd|, EncodeArgs(cmd) + rest);
    } else {
      RunHead(max, cmd, EncodeArgs(cmd) + rest);
      ArgsRefused(max, [], cmd, rest);
    }
  }

  lemma {:induction false} ParsedAtMost(max: nat, recs: seq<Command>)
    requires InI64(max)
    ensures Run(max, Line, EncodeAll(recs)).Parsed? ==> |Run(max, Line, EncodeAll(recs)).cmds| <= |recs|
  {
    hide Run, Encode;
    if recs == [] {
      RunNothing(max);
    } else {
      var rest := EncodeAll(recs[1..]);
      ParsedAtMost(max, recs[1..]);
      if recs[0] == [] {
        EmptyRecord(max, rest);
      } else if Encodable(max, recs[0]) {
        RunRecord(max, recs[0], rest);
      } else {
        RecordRefused(max, recs[0], rest);
      }
    }
  }

  /** Exactly which logs read back: those all of whose records are within the limits. */
  lemma {:induction false} LogReadsBack(max: nat, recs: seq<Command>)
    requires InI64(max)
    ensures Run(max, Line, EncodeAll(recs)) == Parsed(recs, Line, []) <==> AllEncodable(max, recs)
  {
    hide Run, Encode;
    if recs == [] {
      RunNothing(max);
    } else {
      var rest := EncodeAll(recs[1..]);
      LogReadsBack(max, recs[1..]);
      assert recs == [recs[0]] + recs[1..];
      if recs[0] == [] {
        EmptyRecord(max, rest);
        ParsedAtMost(max, recs[1..]);
      } else if Encodable(max, recs[0]) {
        RunRecord(max, recs[0], rest);
        assert AllEncodable(max, recs) <==> AllEncodable(max, recs[1..]);
      } else {
        RecordRefused(max, recs[0], rest);
      }
    }
  }

  // ---- which commands are within the limits --------------------------------

  /** A command typed on one line. */
  ghost predicate Inline(cmd: Command) {
    exists line :: cmd == Words(line)
  }

  lemma StepFrames(max: nat, mode: Mode, buf: Bytes)
    requires BoundedMode(max, mode) && Step(max, mode, buf).Advance?
    ensures BoundedMode(max, Step(max, mode, buf).mode)
    ensures forall c :: c in Step(max, mode, buf).out ==> Encodable(max, c) || Inline(c)
  {
  }

  /** Whatever bytes arrive, a command that came as an array is within the limits: others were typed inline. */
  lemma {:induction false} RunFrames(max: nat, mode: Mode, buf: Bytes)
    requires BoundedMode(max, mode)
    ensures var p := Run(max, mode, buf);
            p.Parsed? ==> forall c :: c in p.cmds ==> Encodable(max, c) || Inline(c)
    decreases |buf|, if mode.BulkHead? then 1 else 0
  {
    hide Step, Inline, Encodable, BoundedMode;
    var m := Step(max, mode, buf);
    if m.Advance? {
      StepFrames(max, mode, buf);
      RunFrames(max, m.mode, buf[m.used..]);
    }
  }

  predicate OneLine(words: seq<Bytes>) {
    && words != [] && (forall i :: 0 <= i < |words| ==> IsWord(words[i]) && '\n' !in words[i])
    && words[0][0] != '*'
  }

  lemma {:induction false} JoinedLine(words: seq<Bytes>)
    requires forall i :: 0 <= i < |words| ==> IsWord(words[i]) && '\n' !in words[i]
    ensures '\n' !in Join(words)
    ensures words != [] ==> words[0] != [] && Join(words) != [] && Join(words)[0] == words[0][0]
  {
    if |words| > 1 {
      JoinedLine(words[1..]);
    }
  }

  /** The inline form has no limit on the number of words. */
  lemma InlineParses(max: nat, words: seq<Bytes>)
    requires OneLine(words)
    ensures Run(max, Line, Join(words) + CRLF) == Parsed([words], Line, [])
  {
    hide Words, Join;
    var line := Join(words);
    var buf := line + CRLF;
    JoinedLine(words);
    WordsOfJoin(words);
    var nl := |line| + 1;
    assert buf[..nl] == line + "\r" && buf[nl] == '\n' && buf[nl + 1..] == [];
    NewlineUnique(buf, nl);
    assert (line + "\r")[..|line|] == line;
    assert Step(max, Line, buf) == Advance(nl + 1, Line, [words]);
    RunNothing(max);
  }
}
