/**
 One connection as a value: what the parser holds, the bytes waiting to be sent, and
 whether the connection is due to close. A chunk that parses is answered command by
 command; one that does not is answered with a single error, and the parser goes on
 from where the error left it if it is ever fed again.
 */
module Stream {
  import opened Base
  import opened RespWriter
  import opened RespParser

  const MAX_OUTBUF: nat := 256 * 1024 * 1024

  /** What the loop does about a chunk: run commands, or refuse it. */
  datatype Reaction = Answer(cmd: Command) | Refuse(error: Bytes)

  function Runs(cmds: seq<Command>): seq<Reaction> {
    if cmds == [] then [] else [Answer(cmds[0])] + Runs(cmds[1..])
  }

  function Reactions(r: FeedResult): seq<Reaction> {
    match r
    case Ok(cmds, _) => Runs(cmds)
    case ProtocolError(e, _) => [Refuse(e)]
  }

  /** The reactions to a list of chunks, and the parser afterwards, errors or not. */
  function React(max: nat, st: Residue, chunks: seq<Bytes>): (seq<Reaction>, Residue)
    decreases |chunks|
  {
    if chunks == [] then ([], st)
    else
      var r := Feed(max, st, chunks[0]);
      var (more, last) := React(max, r.next, chunks[1..]);
      (Reactions(r) + more, last)
  }

  /** A command handed to the handler, and its answer. */
  datatype Exchange = Exchange(cmd: Command, reply: Bytes)

  /** The commands that call for the handler, in order. */
  function Asked(reactions: seq<Reaction>): seq<Command> {
    if reactions == [] then []
    else (if reactions[0].Answer? then [reactions[0].cmd] else []) + Asked(reactions[1..])
  }

  function Commands(log: seq<Exchange>): (cmds: seq<Command>)
    ensures |cmds| == |log|
  {
    seq(|log|, i requires 0 <= i < |log| => log[i].cmd)
  }

  function Answers(log: seq<Exchange>): (replies: seq<Bytes>)
    ensures |replies| == |log|
  {
    seq(|log|, i requires 0 <= i < |log| => log[i].reply)
  }

  /** The handler was given exactly these commands, in this order. */
  predicate Handled(reactions: seq<Reaction>, log: seq<Exchange>) {
    Asked(reactions) == Commands(log)
  }

  /** What goes out: the handler's answer to each command, and the error of a refusal, in order. */
  function Replies(reactions: seq<Reaction>, log: seq<Exchange>): seq<Bytes>
    requires Handled(reactions, log)
  {
    if reactions == [] then []
    else if reactions[0].Refuse? then [Error(reactions[0].error)] + Replies(reactions[1..], log)
    else
      assert Commands(log)[1..] == Commands(log[1..]);
      [log[0].reply] + Replies(reactions[1..], log[1..])
  }

  lemma {:induction false} AskedAppend(a: seq<Reaction>, b: seq<Reaction>)
    ensures Asked(a + b) == Asked(a) + Asked(b)
  {
    if a == [] {
      assert a + b == b;
    } else {
      assert (a + b)[1..] == a[1..] + b;
      AskedAppend(a[1..], b);
    }
  }

  lemma CommandsAppend(x: seq<Exchange>, y: seq<Exchange>)
    ensures Commands(x + y) == Commands(x) + Commands(y) && Answers(x + y) == Answers(x) + Answers(y)
  {
  }

  /** What goes out for more reactions follows what went out before. */
  lemma {:induction false} RepliesAppend(a: seq<Reaction>, x: seq<Exchange>, b: seq<Reaction>, y: seq<Exchange>)
    requires Handled(a, x) && Handled(b, y)
    ensures Handled(a + b, x + y) && Replies(a + b, x + y) == Replies(a, x) + Replies(b, y)
    decreases |a|
  {
    AskedAppend(a, b);
    CommandsAppend(x, y);
    if a == [] {
      assert a + b == b && x + y == y;
    } else {
      assert (a + b)[1..] == a[1..] + b && (a + b)[0] == a[0];
      if a[0].Refuse? {
        RepliesAppend(a[1..], x, b, y);
      } else {
        assert Commands(x)[1..] == Commands(x[1..]);
        assert (x + y)[1..] == x[1..] + y && (x + y)[0] == x[0];
        RepliesAppend(a[1..], x[1..], b, y);
      }
    }
  }

  /** When nothing is refused, what goes out is the handler's answers. */
  lemma {:induction false} RepliesAreAnswers(cmds: seq<Command>, log: seq<Exchange>)
    requires cmds == Commands(log)
    ensures Handled(Runs(cmds), log) && Replies(Runs(cmds), log) == Answers(log)
  {
    RunsAsk(cmds);
    if cmds != [] {
      assert Commands(log)[1..] == Commands(log[1..]) && Answers(log) == [log[0].reply] + Answers(log[1..]);
      assert Runs(cmds)[1..] == Runs(cmds[1..]);
      RepliesAreAnswers(cmds[1..], log[1..]);
    }
  }

  lemma {:induction false} RunsAsk(cmds: seq<Command>)
    ensures Asked(Runs(cmds)) == cmds
  {
    if cmds != [] {
      assert Runs(cmds)[1..] == Runs(cmds[1..]);
      RunsAsk(cmds[1..]);
    }
  }

  predicate Refused(reactions: seq<Reaction>) {
    exists i :: 0 <= i < |reactions| && reactions[i].Refuse?
  }

  lemma RefusedAppend(a: seq<Reaction>, b: seq<Reaction>)
    ensures Refused(a + b) <==> Refused(a) || Refused(b)
  {
    if Refused(a) {
      var i :| 0 <= i < |a| && a[i].Refuse?;
      assert (a + b)[i].Refuse?;
    }
    if Refused(b) {
      var i :| 0 <= i < |b| && b[i].Refuse?;
      assert (a + b)[|a| + i].Refuse?;
    }
  }

  lemma {:induction false} RunsRefuseNothing(cmds: seq<Command>)
    ensures !Refused(Runs(cmds)) && |Runs(cmds)| == |cmds|
  {
    if cmds != [] {
      RunsRefuseNothing(cmds[1..]);
      RefusedAppend([Answer(cmds[0])], Runs(cmds[1..]));
    }
  }

  lemma {:induction false} RunsAppend(a: seq<Command>, b: seq<Command>)
    ensures Runs(a + b) == Runs(a) + Runs(b)
  {
    if a == [] {
      assert a + b == b;
    } else {
      assert (a + b)[1..] == a[1..] + b;
      RunsAppend(a[1..], b);
    }
  }

  /** A chunk is refused exactly when feeding it is a protocol error. */
  lemma ReactionsRefuse(r: FeedResult)
    ensures Refused(Reactions(r)) <==> r.ProtocolError?
  {
    match r {
      case Ok(cmds, _) => RunsRefuseNothing(cmds);
      case ProtocolError(_, _) => assert Reactions(r)[0].Refuse?;
    }
  }

  lemma {:induction false} ReactSnoc(max: nat, st: Residue, chunks: seq<Bytes>, chunk: Bytes)
    ensures var (seen, at) := React(max, st, chunks);
            var r := Feed(max, at, chunk);
            React(max, st, chunks + [chunk]) == (seen + Reactions(r), r.next)
    decreases |chunks|
  {
    hide Feed, Reactions;
    if chunks == [] {
      assert [] + [chunk] == [chunk];
      assert [chunk][1..] == [];
      var r := Reactions(Feed(max, st, chunk));
      assert r + [] == r && [] + r == r;
    } else {
      assert (chunks + [chunk])[1..] == chunks[1..] + [chunk];
      var r := Feed(max, st, chunks[0]);
      ReactSnoc(max, r.next, chunks[1..], chunk);
      var (more, at) := React(max, r.next, chunks[1..]);
      AppendAssoc(Reactions(r), more, Reactions(Feed(max, at, chunk)));
    }
  }

  /** As long as nothing was refused, the reactions are the commands of the whole stream, however it was cut. */
  lemma {:induction false} UnrefusedIsWhole(max: nat, st: Residue, chunks: seq<Bytes>)
    requires Settled(max, st) && !Refused(React(max, st, chunks).0)
    ensures Feed(max, st, Flatten(chunks)).Ok?
    ensures var r := Feed(max, st, Flatten(chunks)); React(max, st, chunks) == (Runs(r.cmds), r.next)
  {
    hide Feed, Reactions;
    UnrefusedFeeds(max, st, chunks);
    PiecewiseIsWhole(max, st, chunks);
  }

  lemma {:induction false} UnrefusedFeeds(max: nat, st: Residue, chunks: seq<Bytes>)
    requires !Refused(React(max, st, chunks).0)
    ensures var r := FeedAll(max, st, chunks); r.Ok? && React(max, st, chunks) == (Runs(r.cmds), r.next)
    decreases |chunks|
  {
    hide Feed;
    if chunks != [] {
      var r := Feed(max, st, chunks[0]);
      ReactionsRefuse(r);
      RefusedAppend(Reactions(r), React(max, r.next, chunks[1..]).0);
      UnrefusedFeeds(max, r.next, chunks[1..]);
      RunsAppend(r.cmds, FeedAll(max, r.next, chunks[1..]).cmds);
    }
  }

  // ---- a connection and its readiness events -------------------------------

  datatype Conn = Conn(parser: Residue, outbuf: Bytes, closing: bool)

  const FRESH: Conn := Conn(Residue(Line, []), [], false)

  /** A chunk arrives; `news` are the calls of the handler it makes. */
  function Receive(max: nat, c: Conn, chunk: Bytes, news: seq<Exchange>): Conn
    requires Handled(Reactions(Feed(max, c.parser, chunk)), news)
  {
    var r := Feed(max, c.parser, chunk);
    Conn(r.next, c.outbuf + Flatten(Replies(Reactions(r), news)), c.closing || r.ProtocolError?)
  }

  /** Chunks arrive in turn; a refused one is the last that is read. */
  ghost predicate CanReceive(max: nat, c: Conn, chunks: seq<Bytes>, calls: seq<seq<Exchange>>)
    requires |calls| == |chunks|
    decreases |chunks|
  {
    chunks == [] ||
    (&& Handled(Reactions(Feed(max, c.parser, chunks[0])), calls[0])
     && (Feed(max, c.parser, chunks[0]).ProtocolError? ==> |chunks| == 1)
     && CanReceive(max, Receive(max, c, chunks[0], calls[0]), chunks[1..], calls[1..]))
  }

  ghost function ReceiveAll(max: nat, c: Conn, chunks: seq<Bytes>, calls: seq<seq<Exchange>>): Conn
    requires |calls| == |chunks| && CanReceive(max, c, chunks, calls)
    decreases |chunks|
  {
    if chunks == [] then c
    else ReceiveAll(max, Receive(max, c, chunks[0], calls[0]), chunks[1..], calls[1..])
  }

  lemma {:induction false} ReceiveSnoc(max: nat, c: Conn, chunks: seq<Bytes>, calls: seq<seq<Exchange>>,
                                       chunk: Bytes, more: seq<Exchange>)
    requires |calls| == |chunks| && CanReceive(max, c, chunks, calls)
    requires !Refused(React(max, c.parser, chunks).0)
    requires Handled(Reactions(Feed(max, ReceiveAll(max, c, chunks, calls).parser, chunk)), more)
    ensures CanReceive(max, c, chunks + [chunk], calls + [more])
    ensures ReceiveAll(max, c, chunks + [chunk], calls + [more])
         == Receive(max, ReceiveAll(max, c, chunks, calls), chunk, more)
    decreases |chunks|
  {
    hide Feed, Handled, Reactions;
    if chunks == [] {
      assert chunks + [chunk] == [chunk] && calls + [more] == [more];
      assert [chunk][1..] == [] && [more][1..] == [];
    } else {
      var r := Feed(max, c.parser, chunks[0]);
      ReactionsRefuse(r);
      RefusedAppend(Reactions(r), React(max, r.next, chunks[1..]).0);
      assert (chunks + [chunk])[1..] == chunks[1..] + [chunk];
      assert (calls + [more])[1..] == calls[1..] + [more];
      ReceiveSnoc(max, Receive(max, c, chunks[0], calls[0]), chunks[1..], calls[1..], chunk, more);
    }
  }

  lemma {:induction false} ReceiveParser(max: nat, c: Conn, chunks: seq<Bytes>, calls: seq<seq<Exchange>>)
    requires |calls| == |chunks| && CanReceive(max, c, chunks, calls)
    ensures ReceiveAll(max, c, chunks, calls).parser == React(max, c.parser, chunks).1
    decreases |chunks|
  {
    hide Feed, Handled, Reactions;
    if chunks != [] {
      ReceiveParser(max, Receive(max, c, chunks[0], calls[0]), chunks[1..], calls[1..]);
    }
  }

  /** One more chunk after chunks that were not refused. */
  lemma ReceiveMore(max: nat, c: Conn, chunks: seq<Bytes>, calls: seq<seq<Exchange>>, chunk: Bytes, more: seq<Exchange>)
    requires |calls| == |chunks| && CanReceive(max, c, chunks, calls)
    requires !Refused(React(max, c.parser, chunks).0)
    requires Handled(Reactions(Feed(max, ReceiveAll(max, c, chunks, calls).parser, chunk)), more)
    ensures CanReceive(max, c, chunks + [chunk], calls + [more])
    ensures var at := ReceiveAll(max, c, chunks, calls);
            && ReceiveAll(max, c, chunks + [chunk], calls + [more]) == Receive(max, at, chunk, more)
            && (Feed(max, at.parser, chunk).Ok? ==> !Refused(React(max, c.parser, chunks + [chunk]).0))
  {
    hide Feed, Handled, Reactions, React, CanReceive, ReceiveAll, Refused;
    ReceiveSnoc(max, c, chunks, calls, chunk, more);
    ReceiveParser(max, c, chunks, calls);
    ReactSnoc(max, c.parser, chunks, chunk);
    var r := Feed(max, ReceiveAll(max, c, chunks, calls).parser, chunk);
    ReactionsRefuse(r);
    RefusedAppend(React(max, c.parser, chunks).0, Reactions(r));
  }

  lemma ReceiveNone(max: nat, c: Conn)
    ensures CanReceive(max, c, [], []) && ReceiveAll(max, c, [], []) == c && !Refused(React(max, c.parser, []).0)
  {
  }

  /** How sending ended: everything went out, the kernel buffer was full, or the socket failed. */
  datatype FlushEnd = Drained | WouldBlock | SendFailed

  /** n bytes go out before sending ends. */
  predicate CanFlush(c: Conn, n: nat, end: FlushEnd) {
    n <= |c.outbuf| && (end.Drained? <==> n == |c.outbuf|)
  }

  /** Whether a flush that ended so leaves the connection registered. */
  predicate Keeps(c: Conn, end: FlushEnd) {
    match end
    case Drained => !c.closing
    case WouldBlock => |c.outbuf| <= MAX_OUTBUF
    case SendFailed => false
  }

  function Flushed(c: Conn, n: nat): Conn
    requires n <= |c.outbuf|
  {
    c.(outbuf := c.outbuf[n..])
  }

  /** How a readable event ended: the peer is gone, or what was there was read and the flush ended. */
  datatype ReadEnd = PeerGone | Served(n: nat, end: FlushEnd)

  /** The connection after a readable event, or nothing when it has been closed. */
  ghost function AfterRead(max: nat, c: Conn, chunks: seq<Bytes>, calls: seq<seq<Exchange>>, how: ReadEnd): Option<Conn>
    requires |calls| == |chunks| && CanReceive(max, c, chunks, calls)
    requires how.Served? ==> CanFlush(ReceiveAll(max, c, chunks, calls), how.n, how.end)
  {
    match how
    case PeerGone => None
    case Served(n, end) =>
      var left := Flushed(ReceiveAll(max, c, chunks, calls), n);
      if Keeps(left, end) then Some(left) else None
  }

  /** A connection is due to close once one of its chunks was refused. */
  lemma {:induction false} ClosingMeans(max: nat, c: Conn, chunks: seq<Bytes>, calls: seq<seq<Exchange>>)
    requires |calls| == |chunks| && CanReceive(max, c, chunks, calls)
    ensures ReceiveAll(max, c, chunks, calls).closing <==> c.closing || Refused(React(max, c.parser, chunks).0)
    decreases |chunks|
  {
    hide Feed, Reactions, Handled;
    if chunks != [] {
      var r := Feed(max, c.parser, chunks[0]);
      ReactionsRefuse(r);
      RefusedAppend(Reactions(r), React(max, r.next, chunks[1..]).0);
      ClosingMeans(max, Receive(max, c, chunks[0], calls[0]), chunks[1..], calls[1..]);
    }
  }

  /**
   The parser's contract says that it is not fed again after a protocol error. Exactly when
   the loop breaks it: after a readable event at or after an error, the connection is still
   registered, and its next readable event feeds the parser, if and only if the flush
   stopped because the socket would block, with some but not too many bytes left to send.
   */
  lemma FedAgainAfterError(max: nat, c: Conn, chunks: seq<Bytes>, calls: seq<seq<Exchange>>, how: ReadEnd)
    requires |calls| == |chunks| && CanReceive(max, c, chunks, calls)
    requires c.closing || Refused(React(max, c.parser, chunks).0)
    requires how.Served? ==> CanFlush(ReceiveAll(max, c, chunks, calls), how.n, how.end)
    ensures AfterRead(max, c, chunks, calls, how).Some? <==>
            && how.Served? && how.end.WouldBlock?
            && 0 < |ReceiveAll(max, c, chunks, calls).outbuf| - how.n <= MAX_OUTBUF
  {
    ClosingMeans(max, c, chunks, calls);
  }

  /**
   An input on which it does: "*x" is refused, the error reply would block, and the PING
   that follows is parsed and run although the connection is due to close.
   */
  lemma FedAgainExample(max: nat)
    ensures CanReceive(max, FRESH, ["*x\r\n"], [[]])
    ensures Refused(React(max, FRESH.parser, ["*x\r\n"]).0)
    ensures CanFlush(ReceiveAll(max, FRESH, ["*x\r\n"], [[]]), 0, WouldBlock)
    ensures var left := AfterRead(max, FRESH, ["*x\r\n"], [[]], Served(0, WouldBlock));
            && left == Some(Conn(Residue(Line, []), Error(ERR_MULTIBULK), true))
            && Reactions(Feed(max, left.value.parser, "PING\r\n")) == [Answer(["PING"])]
  {
    hide Feed;
    BadLine(max);
    PingLine(max);
    var chunks, e := ["*x\r\n"], Error(ERR_MULTIBULK);
    var calls: seq<seq<Exchange>> := [[]];
    var refusal := Reactions(Feed(max, FRESH.parser, chunks[0]));
    assert refusal == [Refuse(ERR_MULTIBULK)] && refusal[1..] == [] && Asked(refusal) == [] + Asked([]);
    assert Replies(refusal, []) == [e] + Replies([], []);
    assert chunks[1..] == [] && calls[1..] == [];
    assert React(max, FRESH.parser, chunks).0 == refusal + [];
    assert React(max, FRESH.parser, chunks).0[0].Refuse?;
    assert Flatten([e]) == e + Flatten([]) == e && [] + e == e && e[0..] == e;
    assert Runs([["PING"]]) == [Answer(["PING"])] + Runs([["PING"]][1..]);
  }

  lemma BadLine(max: nat)
    ensures Feed(max, Residue(Line, []), "*x\r\n") == ProtocolError(ERR_MULTIBULK, Residue(Line, []))
  {
    var buf := "*x\r\n";
    NewlineUnique(buf, 3);
    assert [] + buf == buf && buf[..3] == "*x\r" && StripCr("*x\r") == "*x" && "*x"[1..] == "x" && buf[4..] == [];
  }

  lemma PingLine(max: nat)
    ensures Feed(max, Residue(Line, []), "PING\r\n") == Ok([["PING"]], Residue(Line, []))
  {
    hide Words, Join, NewlineAt;
    var buf := "PING\r\n";
    NewlineUnique(buf, 5);
    assert [] + buf == buf && buf[..5] == "PING\r" && StripCr("PING\r") == "PING" && buf[6..] == [];
    PingWord();
    assert Step(max, Line, buf) == Advance(6, Line, [["PING"]]);
    assert Run(max, Line, []) == Parsed([], Line, []);
  }

  lemma PingWord()
    ensures Words("PING") == ["PING"]
  {
    WordsOfJoin(["PING"]);
  }
}
