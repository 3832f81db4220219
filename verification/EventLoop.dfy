/**
 One reactor. For every split of reads and writes, what the socket has taken plus what
 still waits is exactly what the chunks it handed over call for: the handler's answer to
 each of their commands, in order, and an error for each chunk that does not parse.
 */
module EventLoop {
  import opened Base
  import opened RespWriter
  import opened RespParser
  import opened Stream
  import opened Sockets

  const READ_CHUNK: nat := 64 * 1024
  const MAX_READ_PER_EVENT: nat := 1024 * 1024

  /** What the loop has told the kernel to watch: each descriptor for reading and, if true, for writing. */
  class Interest {
    const epoll: Epoll
    var armed: map<int, bool>

    ghost predicate Valid()
      reads this, epoll
    {
      armed == epoll.watched
    }

    constructor (epoll: Epoll)
      requires epoll.watched == map[]
      ensures this.epoll == epoll && armed == map[] && Valid()
    {
      this.epoll, armed := epoll, map[];
    }

    method Register(fd: int) returns (ok: bool)
      requires Valid()
      modifies this, epoll
      ensures Valid() && armed == (if ok then old(armed)[fd := false] else old(armed))
      ensures epoll.refusals == old(epoll.refusals) + if ok then 0 else 1
    {
      ok := epoll.Add(fd, false);
      if ok {
        armed := armed[fd := false];
      }
    }

    /** Changes what a descriptor is watched for, unless that is what it is watched for already. */
    method Rearm(fd: int, writing: bool)
      requires Valid() && fd in armed
      modifies this, epoll
      ensures Valid() && epoll.refusals >= old(epoll.refusals)
      ensures armed == if epoll.refusals == old(epoll.refusals) then old(armed)[fd := writing] else old(armed)
    {
      if armed[fd] == writing {
        assert armed == armed[fd := writing];
        return;
      }
      var ok := epoll.Modify(fd, writing);
      if ok {
        armed := armed[fd := writing];
      }
    }

    method Forget(fd: int)
      requires Valid()
      modifies this, epoll
      ensures Valid() && armed == old(armed) - {fd} && epoll.refusals == old(epoll.refusals)
    {
      epoll.Remove(fd);
      armed := armed - {fd};
    }
  }

  class Connection {
    const fd: int
    const parser: RespParser
    const socket: Socket
    const handler: Handler
    var outbuf: Bytes
    var closeAfterFlush: bool

    ghost function Parts(): set<object> {
      {this, parser, socket, handler}
    }

    ghost predicate Apart(other: Connection) {
      this != other && parser != other.parser && socket != other.socket && handler != other.handler
    }

    ghost function View(): Conn
      requires parser.Valid()
      reads this, parser
    {
      Conn(parser.View(), outbuf, closeAfterFlush)
    }

    /** What the chunks handed over so far call for. */
    ghost function Due(): seq<Reaction>
      reads socket
    {
      React(parser.maxFrameBytes, FRESH.parser, socket.given).0
    }

    /**
     Conservation: the handler was given exactly the commands that were due, in order; its
     answers and the errors, in order, are what the socket has taken and what waits; and a
     protocol error marks the connection.
     */
    ghost predicate Valid()
      reads this, parser, socket, handler
    {
      && parser.Valid()
      && parser.View() == React(parser.maxFrameBytes, FRESH.parser, socket.given).1
      && Handled(Due(), handler.log)
      && socket.taken + outbuf == Flatten(Replies(Due(), handler.log))
      && (closeAfterFlush <==> Refused(Due()))
    }

    /** Whether the last read found the end of the stream or an error. */
    ghost predicate PeerIsGone()
      reads socket
    {
      var n := |socket.recvs|; n > 0 && (socket.recvs[n - 1].Eof? || socket.recvs[n - 1].ReadFails?)
    }

    /** Whether the last send was refused because the kernel's buffer is full. */
    ghost predicate KernelIsFull()
      reads socket
    {
      var n := |socket.sends|; n > 0 && socket.sends[n - 1].WriteBlocks?
    }

    /**
     Why a connection is closed: the peer is gone, all has been sent and an error said it was the
     last, or something is left to send and the socket failed or holds back too much.
     */
    ghost predicate Finished()
      reads this, socket
    {
      || PeerIsGone()
      || (outbuf == [] && closeAfterFlush)
      || (outbuf != [] && (!KernelIsFull() || |outbuf| > 268435456))
    }

    /**
     No other descriptor is watched for anything else than before; and if this one was to be armed
     and no call was refused, it is watched for room exactly when something is left to send.
     */
    ghost predicate Watched(interest: Interest, before: map<int, bool>, refusals: nat, arms: bool)
      reads this, interest, interest.epoll
    {
      && interest.Valid() && refusals <= interest.epoll.refusals && interest.armed.Keys == before.Keys
      && (forall f :: f in before && f != fd ==> interest.armed[f] == before[f])
      && (arms && refusals == interest.epoll.refusals ==>
            fd in interest.armed && interest.armed[fd] == (outbuf != []))
    }

    /** Nothing has been read, written or run for this connection. */
    ghost predicate Untouched()
      reads this, parser, socket, handler
    {
      && socket.recvs == [] && socket.sends == [] && socket.given == [] && socket.taken == []
      && handler.log == [] && outbuf == [] && !closeAfterFlush
    }

    constructor (fd: int, maxFrameBytes: nat, control: Control)
      ensures Valid() && Untouched() && !Finished() && fresh(Parts()) && this.fd == fd && View() == FRESH
      ensures handler.control == control
    {
      this.fd := fd;
      parser := new RespParser(maxFrameBytes);
      socket := new Socket();
      handler := new Handler(control);
      outbuf, closeAfterFlush := [], false;
    }

    /**
     Until a protocol error, the handler has run exactly the commands of the whole byte stream
     received, in order, and its answers, in order, are what was sent and what waits.
     */
    lemma Conserves()
      requires Valid() && !closeAfterFlush
      ensures var r := Feed(parser.maxFrameBytes, FRESH.parser, Flatten(socket.given));
              && r.Ok? && r.next == parser.View() && r.cmds == Commands(handler.log)
              && socket.taken + outbuf == Flatten(Answers(handler.log))
    {
      hide Feed;
      StartSettled(parser.maxFrameBytes);
      UnrefusedIsWhole(parser.maxFrameBytes, FRESH.parser, socket.given);
      var cmds := Feed(parser.maxFrameBytes, FRESH.parser, Flatten(socket.given)).cmds;
      RunsAsk(cmds);
      RepliesAreAnswers(cmds, handler.log);
    }

    static lemma StartSettled(max: nat)
      ensures Settled(max, FRESH.parser)
    {
    }

    method QueueReply(bytes: Bytes)
      modifies this`outbuf
      ensures outbuf == old(outbuf) + bytes
    {
      outbuf := outbuf + bytes;
    }

    /** Drops the first n bytes of the buffer. */
    method ConsumeOutbuf(n: nat)
      requires n <= |outbuf|
      modifies this`outbuf
      ensures outbuf == old(outbuf)[n..]
    {
      outbuf := outbuf[n..];
    }

    /** How sending ended, from what is left and how the last call went. */
    ghost function SendEnd(): FlushEnd
      reads this, socket
    {
      if outbuf == [] then Drained
      else if KernelIsFull() then WouldBlock
      else SendFailed
    }

    /**
     Sends as much as the kernel takes, in any pieces. What the socket takes and what is left is
     what was waiting; it stops only when nothing is left or a call neither takes bytes nor was
     interrupted.
     */
    method SendAll() returns (blocked: bool, ghost n: nat)
      requires Valid()
      modifies this`outbuf, socket
      ensures Valid() && n <= |old(outbuf)|
      ensures socket.taken == old(socket.taken) + old(outbuf)[..n] && View() == Flushed(old(View()), n)
      ensures socket.given == old(socket.given) && socket.recvs == old(socket.recvs)
      ensures Wrote(old(socket.sends), socket.sends, outbuf == [])
      ensures old(outbuf) == [] ==> socket.sends == old(socket.sends)
      ensures CanFlush(old(View()), n, SendEnd()) && (outbuf != [] ==> blocked == KernelIsFull())
    {
      hide Flatten, React, Replies, Handled, Refused;
      ghost var all, waiting, sent := socket.taken + outbuf, outbuf, socket.taken;
      n, blocked := 0, false;
      assert waiting[0..] == waiting && sent + waiting[..0] == sent;
      while outbuf != []
        invariant n <= |waiting| && outbuf == waiting[n..] && socket.taken == sent + waiting[..n]
        invariant socket.given == old(socket.given) && socket.recvs == old(socket.recvs)
        invariant Progressing(old(socket.sends), socket.sends)
        invariant waiting == [] ==> socket.sends == old(socket.sends)
        decreases |outbuf|, socket.interrupts
      {
        ghost var before := socket.sends;
        var r := socket.Send(outbuf);
        if r.Took? && r.n > 0 {
          SentMore(sent, waiting, n, r.n);
          ConsumeOutbuf(r.n);
          n := n + r.n;
          continue;
        }
        if r.WriteInterrupted? {
          assert sent + waiting[..n] == socket.taken;
          continue;
        }
        assert r.Took? ==> outbuf[..0] == [] && socket.taken == sent + waiting[..n];
        SentSplit(sent, waiting, n);
        assert outbuf == waiting[n..];
        return r.WriteBlocks?, n;
      }
      SentSplit(sent, waiting, n);
    }

    /**
     Sends, and says whether the connection stays open: if all was sent, unless an error was the last
     of it; and if the kernel's buffer is full, unless too much is left. If it stays open, the kernel
     is told to watch for room exactly when something is left.
     */
    method Flush(interest: Interest) returns (alive: bool, ghost n: nat)
      requires Valid() && interest.Valid() && fd in interest.armed
      modifies this`outbuf, socket, interest, interest.epoll
      ensures Valid() && n <= |old(outbuf)|
      ensures socket.taken == old(socket.taken) + old(outbuf)[..n] && View() == Flushed(old(View()), n)
      ensures socket.given == old(socket.given) && socket.recvs == old(socket.recvs)
      ensures Wrote(old(socket.sends), socket.sends, outbuf == [])
      ensures old(outbuf) == [] ==> socket.sends == old(socket.sends)
      ensures CanFlush(old(View()), n, SendEnd()) && alive == Keeps(View(), SendEnd())
      ensures Watched(interest, old(interest.armed), old(interest.epoll.refusals), alive)
    {
      hide Wrote, CanFlush, React, Handled, Replies, Flatten, Refused, Flushed;
      var blocked;
      blocked, n := SendAll();
      alive := if outbuf == [] then !closeAfterFlush else blocked && |outbuf| <= MAX_OUTBUF;
      if alive {
        interest.Rearm(fd, outbuf != []);
      }
    }

    static lemma SentMore(sent: Bytes, waiting: Bytes, n: nat, took: nat)
      requires n + took <= |waiting|
      ensures waiting[n..][took..] == waiting[n + took..]
      ensures (sent + waiting[..n]) + waiting[n..][..took] == sent + waiting[..n + took]
    {
    }

    static lemma SentSplit(sent: Bytes, waiting: Bytes, n: nat)
      requires n <= |waiting|
      ensures (sent + waiting[..n]) + waiting[n..] == sent + waiting
    {
    }

    /**
     Feeds one received chunk: every command it completes goes to the handler and its answer is
     queued, or the error is. The parser is fed even if an earlier chunk was refused.
     */
    method Take(ghost before: seq<Bytes>, chunk: Bytes) returns (ok: bool, ghost news: seq<Exchange>)
      requires socket.given == before + [chunk] && ValidBut(before)
      modifies this, parser, handler, handler.control
      ensures Valid()
      ensures handler.log == old(handler.log) + news
      ensures Handled(Reactions(Feed(parser.maxFrameBytes, old(View()).parser, chunk)), news)
      ensures View() == Receive(parser.maxFrameBytes, old(View()), chunk, news)
      ensures ok == Feed(parser.maxFrameBytes, old(View()).parser, chunk).Ok? && (!ok ==> closeAfterFlush)
    {
      hide Feed, React, Handled, Replies, Refused, Flatten;
      ghost var r := Feed(parser.maxFrameBytes, View().parser, chunk);
      ghost var due, log := React(parser.maxFrameBytes, FRESH.parser, before).0, handler.log;
      ReactSnoc(parser.maxFrameBytes, FRESH.parser, before, chunk);
      ReactionsRefuse(r);
      RefusedAppend(due, Reactions(r));
      var error, cmds := parser.FeedChunk(chunk);
      ghost var waiting := outbuf;
      if error.Some? {
        QueueReply(Error(error.value));
        closeAfterFlush := true;
        news := [];
        assert log + [] == log;
        RefusalReplied(error.value);
      } else {
        news := Serve(cmds);
        RepliesAreAnswers(cmds, news);
      }
      RepliesAppend(due, log, Reactions(r), news);
      FlattenAppend(Replies(due, log), Replies(Reactions(r), news));
      AppendAssoc(socket.taken, waiting, Flatten(Replies(Reactions(r), news)));
      ok := error.None?;
    }

    /** Valid, but for a chunk that has been handed over after `before` and not been dealt with. */
    ghost predicate ValidBut(before: seq<Bytes>)
      reads this, parser, socket, handler
    {
      var (due, at) := React(parser.maxFrameBytes, FRESH.parser, before);
      && parser.Valid() && parser.View() == at
      && Handled(due, handler.log)
      && socket.taken + outbuf == Flatten(Replies(due, handler.log))
      && (closeAfterFlush <==> Refused(due))
    }

    static lemma RefusalReplied(e: Bytes)
      ensures Handled([Refuse(e)], []) && Flatten(Replies([Refuse(e)], [])) == Error(e)
    {
      assert [Refuse(e)][1..] == [];
      assert Replies([Refuse(e)], []) == [Error(e)] + [];
      assert Flatten([Error(e)]) == Error(e) + Flatten([]);
    }

    /** Hands the commands of a chunk to the handler, in order, and queues its answers. */
    method Serve(cmds: seq<Command>) returns (ghost news: seq<Exchange>)
      modifies this`outbuf, handler, handler.control
      ensures handler.log == old(handler.log) + news && Commands(news) == cmds
      ensures outbuf == old(outbuf) + Flatten(Answers(news))
    {
      news := [];
      assert outbuf + [] == outbuf && handler.log + [] == handler.log;
      var i := 0;
      while i < |cmds|
        invariant 0 <= i <= |cmds|
        invariant handler.log == old(handler.log) + news && Commands(news) == cmds[..i]
        invariant outbuf == old(outbuf) + Flatten(Answers(news))
      {
        var reply := handler.Call(cmds[i]);
        QueueReply(reply);
        ghost var one := [Exchange(cmds[i], reply)];
        AnswerOne(old(outbuf), news, one[0]);
        AppendAssoc(old(handler.log), news, one);
        news := news + one;
        assert cmds[..i + 1] == cmds[..i] + [cmds[i]];
        i := i + 1;
      }
      assert cmds[..i] == cmds;
    }

    static lemma AnswerOne(out: Bytes, news: seq<Exchange>, x: Exchange)
      ensures (out + Flatten(Answers(news))) + x.reply == out + Flatten(Answers(news + [x]))
      ensures Commands(news + [x]) == Commands(news) + [x.cmd]
    {
      CommandsAppend(news, [x]);
      assert Answers([x]) == [x.reply];
      FlattenAppend(Answers(news), [x.reply]);
      assert Flatten([x.reply]) == x.reply + Flatten([]) == x.reply;
      AppendAssoc(out, Flatten(Answers(news)), x.reply);
    }

    /** The chunks read so far in this event, and the connection as they left it. */
    ghost predicate Reading(start: Conn, chunks: seq<Bytes>, calls: seq<seq<Exchange>>)
      requires parser.Valid()
      reads this, parser
    {
      && |calls| == |chunks| && CanReceive(parser.maxFrameBytes, start, chunks, calls)
      && View() == ReceiveAll(parser.maxFrameBytes, start, chunks, calls)
    }

    /**
     Reads in chunks until one is refused, the server is asked to stop, a chunk comes short, the
     fairness cap is reached, or there is nothing to read.
     */
    method ReadChunks() returns (gone: bool, ghost chunks: seq<Bytes>, ghost calls: seq<seq<Exchange>>)
      requires Valid()
      modifies Parts(), handler.control
      ensures Valid() && Reading(old(View()), chunks, calls)
      ensures socket.given == old(socket.given) + chunks && handler.log == old(handler.log) + Joined(calls)
      ensures socket.taken == old(socket.taken) && socket.sends == old(socket.sends)
      ensures gone == PeerIsGone()
      ensures ReadEnough(old(socket.recvs), socket.recvs, closeAfterFlush || handler.control.stopRequested)
    {
      hide Feed, React, Handled, CanReceive, ReceiveAll, Receive, Refused, Flatten, Reactions, Replies;
      hide ReadEnough, ReadingOn;
      ghost var start, max := View(), parser.maxFrameBytes;
      chunks, calls := [], [];
      ReceiveNone(max, start);
      ReadNothing(socket.recvs);
      assert socket.given + [] == socket.given && handler.log + Joined([]) == handler.log;
      var total := 0;
      while true
        invariant Valid() && Reading(start, chunks, calls) && !Refused(React(max, start.parser, chunks).0)
        invariant socket.given == old(socket.given) + chunks && handler.log == old(handler.log) + Joined(calls)
        invariant socket.taken == old(socket.taken) && socket.sends == old(socket.sends)
        invariant ReadingOn(old(socket.recvs), socket.recvs, total) && total < MAX_READ_PER_EVENT
        decreases MAX_READ_PER_EVENT - total, socket.interrupts
      {
        ghost var before, recvs := socket.given, socket.recvs;
        var r := socket.Recv(READ_CHUNK);
        ReadOne(old(socket.recvs), recvs, total, r);
        match r {
          case Data(chunk) =>
            total := total + |chunk|;
            var ok, news := Take(before, chunk);
            ReceiveMore(max, start, chunks, calls, chunk, news);
            AppendAssoc(old(socket.given), chunks, [chunk]);
            JoinedMore(old(handler.log), calls, news);
            chunks, calls := chunks + [chunk], calls + [news];
            if !ok || handler.control.stopRequested || |chunk| < READ_CHUNK || total >= MAX_READ_PER_EVENT {
              return false, chunks, calls;
            }
          case ReadInterrupted =>
          case ReadBlocks =>
            return false, chunks, calls;
          case Eof =>
            return true, chunks, calls;
          case ReadFails =>
            return true, chunks, calls;
        }
      }
    }

    /** A readable event: reads, answers and flushes, unless the peer is gone. */
    method HandleReadable(interest: Interest)
      returns (alive: bool, ghost chunks: seq<Bytes>, ghost calls: seq<seq<Exchange>>, ghost how: ReadEnd)
      requires Valid() && interest.Valid() && fd in interest.armed
      modifies Parts(), handler.control, interest, interest.epoll
      ensures Valid() && |calls| == |chunks|
      ensures socket.given == old(socket.given) + chunks && handler.log == old(handler.log) + Joined(calls)
      ensures old(socket.taken) <= socket.taken
      ensures ReadEnough(old(socket.recvs), socket.recvs, closeAfterFlush || handler.control.stopRequested)
      ensures how.PeerGone? <==> PeerIsGone()
      ensures how.PeerGone? ==> socket.sends == old(socket.sends)
      ensures CanReceive(parser.maxFrameBytes, old(View()), chunks, calls)
      ensures how.Served? ==> how.end == SendEnd() && Wrote(old(socket.sends), socket.sends, outbuf == [])
      ensures how.Served? ==> CanFlush(ReceiveAll(parser.maxFrameBytes, old(View()), chunks, calls), how.n, how.end)
      ensures how.Served? ==> View() == Flushed(ReceiveAll(parser.maxFrameBytes, old(View()), chunks, calls), how.n)
      ensures alive <==> how.Served? && Keeps(View(), how.end)
      ensures AfterRead(parser.maxFrameBytes, old(View()), chunks, calls, how) == if alive then Some(View()) else None
      ensures Watched(interest, old(interest.armed), old(interest.epoll.refusals), alive)
    {
      hide Feed, React, Handled, CanReceive, ReceiveAll, Receive, Refused, Flatten, Reactions, Replies, Joined;
      hide ReadEnough, Wrote;
      var gone;
      gone, chunks, calls := ReadChunks();
      if gone {
        return false, chunks, calls, PeerGone;
      }
      ghost var n;
      alive, n := Flush(interest);
      how := Served(n, SendEnd());
    }

    /**
     A readable event, a writable one, or both. What is asked for is done: a readable event reads, and
     unless the peer is gone either one sends, a writable one after a readable one again if
     something was left. The connection is to be closed exactly when it is finished.
     */
    method OnEvent(interest: Interest, readable: bool, writable: bool) returns (alive: bool)
      requires Valid() && !Finished() && interest.Valid() && fd in interest.armed
      modifies Parts(), handler.control, interest, interest.epoll
      ensures Valid() && old(socket.taken) <= socket.taken && old(handler.log) <= handler.log
      ensures alive <==> !Finished()
      ensures if readable then
                ReadEnough(old(socket.recvs), socket.recvs, closeAfterFlush || handler.control.stopRequested)
              else socket.recvs == old(socket.recvs) && socket.given == old(socket.given)
      ensures Sent(old(socket.sends), socket.sends, outbuf == [], readable && !PeerIsGone(),
                   writable && !PeerIsGone(), alive)
      ensures !readable && !writable ==> outbuf == old(outbuf) && interest.armed == old(interest.armed)
      ensures Watched(interest, old(interest.armed), old(interest.epoll.refusals), alive && (readable || writable))
    {
      hide CanReceive, ReceiveAll, React, Flatten, Replies, Wrote, Valid;
      alive := true;
      if readable {
        ghost var chunks, calls, how;
        alive, chunks, calls, how := HandleReadable(interest);
      }
      ghost var mid, left := socket.sends, outbuf;
      if alive && writable {
        ghost var n;
        alive, n := Flush(interest);
        if readable {
          SentAgain(old(socket.sends), mid, left == [], socket.sends, outbuf == [], alive);
        }
      }
    }
  }

  // ---- how a sequence of calls went ----------------------------------------

  /** Every new call took bytes or was interrupted. */
  ghost predicate Progressing(before: seq<WriteResult>, now: seq<WriteResult>) {
    && before <= now
    && forall i :: |before| <= i < |now| ==> (now[i].Took? && now[i].n > 0) || now[i].WriteInterrupted?
  }

  /** Sending went on until nothing was left, or until a call neither took bytes nor was interrupted. */
  ghost predicate Wrote(before: seq<WriteResult>, now: seq<WriteResult>, drained: bool) {
    if drained then Progressing(before, now)
    else
      && |before| < |now| && Progressing(before, now[..|now| - 1])
      && !(now[|now| - 1].Took? && now[|now| - 1].n > 0) && !now[|now| - 1].WriteInterrupted?
  }

  /**
   What a readable half, if it came to sending, and a writable half sent. After both, on a
   connection that stays open, the second one tried again if the first had left something.
   */
  ghost predicate Sent(before: seq<WriteResult>, now: seq<WriteResult>, drained: bool, first: bool, second: bool,
                       alive: bool)
  {
    if !first && !second then now == before
    else if first && second then
      || ((drained || !alive) && Wrote(before, now, drained))
      || exists mid :: Wrote(before, mid, false) && Wrote(mid, now, drained)
    else Wrote(before, now, drained)
  }

  lemma SentAgain(before: seq<WriteResult>, mid: seq<WriteResult>, empty: bool, now: seq<WriteResult>, drained: bool,
                  alive: bool)
    requires Wrote(before, mid, empty) && Wrote(mid, now, drained) && (empty ==> now == mid && drained)
    ensures Sent(before, now, drained, true, true, alive)
  {
    hide Wrote;
  }

  /** How many bytes some reads handed over. */
  function ReadBytes(rs: seq<ReadResult>): nat {
    if rs == [] then 0
    else ReadBytes(rs[..|rs| - 1]) + if rs[|rs| - 1].Data? then |rs[|rs| - 1].bytes| else 0
  }

  /** Every new read was interrupted or handed over a full chunk; `total` bytes so far. */
  ghost predicate ReadingOn(before: seq<ReadResult>, now: seq<ReadResult>, total: nat) {
    && before <= now && ReadBytes(now[|before|..]) == total
    && forall i :: |before| <= i < |now| ==> now[i].ReadInterrupted? || (now[i].Data? && |now[i].bytes| == 65536)
  }

  /**
   Reading went on through full chunks up to the first read that was not one, unless it was
   stopped after a chunk or had read a mebibyte.
   */
  ghost predicate ReadEnough(before: seq<ReadResult>, now: seq<ReadResult>, stopped: bool) {
    |before| < |now| &&
    var n := |now| - 1;
    var total := ReadBytes(now[..n][|before|..]);
    && total < 1048576 && ReadingOn(before, now[..n], total) && !now[n].ReadInterrupted?
    && (now[n].Data? ==> stopped || |now[n].bytes| < 65536 || ReadBytes(now[|before|..]) >= 1048576)
  }

  lemma ReadNothing(recvs: seq<ReadResult>)
    ensures ReadingOn(recvs, recvs, 0)
  {
  }

  lemma ReadOne(before: seq<ReadResult>, now: seq<ReadResult>, total: nat, r: ReadResult)
    requires ReadingOn(before, now, total) && total < 1048576
    ensures r.ReadInterrupted? ==> ReadingOn(before, now + [r], total)
    ensures r.Data? && |r.bytes| == 65536 ==> ReadingOn(before, now + [r], total + |r.bytes|)
    ensures !r.ReadInterrupted? && (r.Data? ==> |r.bytes| < 65536 || total + |r.bytes| >= 1048576) ==>
              forall stopped :: ReadEnough(before, now + [r], stopped)
    ensures !r.ReadInterrupted? ==> ReadEnough(before, now + [r], true)
  {
    var all := now + [r];
    assert all[..|now|] == now && all[|before|..|now|] == now[|before|..] && all[|now|] == r;
    assert all[|before|..] == now[|before|..] + [r];
    assert all[|before|..][..|all| - |before| - 1] == now[|before|..];
  }

  /** The calls of all chunks, in order. */
  function Joined(calls: seq<seq<Exchange>>): seq<Exchange> {
    if calls == [] then [] else Joined(calls[..|calls| - 1]) + calls[|calls| - 1]
  }

  lemma JoinedMore(log: seq<Exchange>, calls: seq<seq<Exchange>>, news: seq<Exchange>)
    ensures (log + Joined(calls)) + news == log + Joined(calls + [news])
  {
    assert (calls + [news])[..|calls|] == calls;
    AppendAssoc(log, Joined(calls), news);
  }

  /** One readiness event of a batch. */
  datatype Ready = Ready(fd: int, hangup: bool, readable: bool, writable: bool)

  /** The calls on a socket so far. */
  datatype Calls = Calls(recvs: seq<ReadResult>, sends: seq<WriteResult>)

  ghost function CallsOn(c: Connection): Calls
    reads c.socket
  {
    Calls(c.socket.recvs, c.socket.sends)
  }

  /** What the event asked for was done, from how the calls on the socket went. */
  ghost predicate Obeyed(ev: Ready, c: Connection, before: Calls, open: bool)
    reads c, c.socket, c.handler.control
  {
    && (if ev.readable then
          ReadEnough(before.recvs, c.socket.recvs, c.closeAfterFlush || c.handler.control.stopRequested)
        else c.socket.recvs == before.recvs)
    && Sent(before.sends, c.socket.sends, c.outbuf == [], ev.readable && !c.PeerIsGone(),
            ev.writable && !c.PeerIsGone(), open)
  }

  lemma ObeyedCounts(ev: Ready, c: Connection, before: Calls, open: bool)
    requires Obeyed(ev, c, before, open)
    ensures |before.recvs| <= |c.socket.recvs| && |before.sends| <= |c.socket.sends|
    ensures ev.readable ==> |before.recvs| < |c.socket.recvs|
    ensures (ev.readable || ev.writable) && !c.PeerIsGone() && c.outbuf != [] ==> |before.sends| < |c.socket.sends|
  {
  }

  ghost predicate HungUp(events: seq<Ready>, fd: int) {
    exists i :: 0 <= i < |events| && events[i].fd == fd && events[i].hangup
  }

  /** The calls on a connection since `before` answer its events: read if readable, and sending tried if writable. */
  ghost predicate Answered(fd: int, before: Calls, now: Calls, drained: bool, events: seq<Ready>) {
    && |before.recvs| <= |now.recvs| && |before.sends| <= |now.sends|
    && forall i :: 0 <= i < |events| && events[i].fd == fd ==>
         && !events[i].hangup
         && (events[i].readable ==> |before.recvs| < |now.recvs|)
         && (events[i].writable ==> drained || |before.sends| < |now.sends|)
  }

  /**
   What became of a connection in a batch: closed because it hung up or is finished; or read if
   it was readable, and if it was writable nothing is left to send or sending was tried.
   */
  ghost predicate Accounted(c: Connection, closed: bool, before: Calls, events: seq<Ready>)
    reads c, c.socket
  {
    if closed then HungUp(events, c.fd) || c.Finished()
    else Answered(c.fd, before, CallsOn(c), c.outbuf == [], events)
  }

  lemma AccountedNone(c: Connection, before: Calls)
    requires before == CallsOn(c)
    ensures Accounted(c, false, before, [])
  {
  }

  /** An event for another connection, or for one that is closed already, changes nothing. */
  lemma AccountedOther(c: Connection, closed: bool, before: Calls, events: seq<Ready>, ev: Ready)
    requires Accounted(c, closed, before, events) && (ev.fd != c.fd || closed)
    ensures Accounted(c, closed, before, events + [ev])
  {
    hide Connection.Finished;
    if closed && HungUp(events, c.fd) {
      var i :| 0 <= i < |events| && events[i].fd == c.fd && events[i].hangup;
      assert (events + [ev])[i] == events[i];
    }
  }

  lemma WasAnswered(c: Connection, before: Calls, events: seq<Ready>)
    requires Accounted(c, false, before, events)
    ensures Answered(c.fd, before, CallsOn(c), c.outbuf == [], events)
  {
  }

  /** One more event, on a connection that was open and on which there had been the calls `was`. */
  lemma AccountedNext(c: Connection, closed: bool, before: Calls, was: Calls, empty: bool,
                      events: seq<Ready>, ev: Ready)
    requires Answered(c.fd, before, was, empty, events) && ev.fd == c.fd
    requires closed <==> ev.hangup || c.Finished()
    requires !ev.hangup ==> Obeyed(ev, c, was, !closed)
    requires !ev.readable && !ev.writable ==> empty == (c.outbuf == [])
    ensures Accounted(c, closed, before, events + [ev])
  {
    hide Obeyed;
    if ev.hangup {
      assert (events + [ev])[|events|].hangup;
    } else {
      ObeyedCounts(ev, c, was, !closed);
    }
  }

  /** The accept queue, asked so often before and so often now, has been drained if one of the events was for it. */
  ghost predicate QueueDrained(fd: int, before: seq<Option<int>>, now: seq<Option<int>>, events: seq<Ready>) {
    before <= now &&
    ((exists i :: 0 <= i < |events| && events[i].fd == fd) ==> before < now && now[|now| - 1].None?)
  }

  lemma NothingDrained(fd: int, now: seq<Option<int>>)
    ensures QueueDrained(fd, now, now, [])
  {
  }

  lemma DrainedNext(fd: int, before: seq<Option<int>>, mid: seq<Option<int>>, now: seq<Option<int>>,
                    events: seq<Ready>, ev: Ready)
    requires QueueDrained(fd, before, mid, events)
    requires if ev.fd == fd then mid < now && now[|now| - 1].None? else now == mid
    ensures QueueDrained(fd, before, now, events + [ev])
  {
  }

  class Loop {
    const listenerFd: int
    const maxClients: nat
    const maxFrameBytes: nat
    const interest: Interest
    const listener: Listener
    const control: Control
    var conns: map<int, Connection>
    var closedThisBatch: seq<int>
    // The connections the events of this batch were reported for.
    ghost var reported: map<int, Connection>

    ghost function Objects(): set<object>
      reads this
    {
      (set fd | fd in conns :: conns[fd]) + (set fd | fd in conns :: conns[fd].parser)
      + (set fd | fd in conns :: conns[fd].socket) + (set fd | fd in conns :: conns[fd].handler)
    }

    ghost predicate Separate()
      reads this
    {
      && listenerFd !in conns
      && (forall fd :: fd in conns ==> conns[fd].fd == fd && conns[fd].handler.control == control)
      && (forall a, b :: a in conns && b in conns && a != b ==> conns[a].Apart(conns[b]))
    }

    /** Every open connection keeps its reply stream and is not finished. */
    ghost predicate Valid()
      reads this, Objects()
    {
      Separate() && forall fd :: fd in conns ==> conns[fd].Valid() && !conns[fd].Finished()
    }

    /**
     The kernel watches exactly the open connections; and as long as it has refused nothing, it
     watches a connection for room exactly when something is left to send on it.
     */
    ghost predicate Watching()
      reads this, Objects(), interest, interest.epoll
    {
      && interest.Valid() && interest.armed.Keys == conns.Keys
      && (interest.epoll.refusals == 0 ==>
            forall fd :: fd in conns ==> interest.armed[fd] == (conns[fd].outbuf != []))
    }

    /** The connection under this descriptor was accepted in this batch. */
    ghost predicate Newcomer(fd: int)
      requires fd in conns
      reads this
    {
      !(fd in reported && reported[fd] == conns[fd])
    }

    /**
     A connection not closed in this batch is the one its events were reported for, and
     nothing has happened yet on one that was accepted in it.
     */
    ghost predicate Tracked()
      reads this, Objects()
    {
      && (forall fd :: fd in reported ==> reported[fd].fd == fd && reported[fd].handler.control == control)
      && (forall a, b :: a in reported && b in reported && a != b ==> reported[a].Apart(reported[b]))
      && (forall fd :: fd in reported && fd !in closedThisBatch ==> fd in conns && conns[fd] == reported[fd])
      && (forall fd :: fd in conns && Newcomer(fd) ==> conns[fd].Untouched())
    }

    constructor (listenerFd: int, maxClients: nat, maxFrameBytes: nat,
                 epoll: Epoll, listener: Listener, control: Control)
      requires epoll.watched == map[]
      ensures Valid() && Watching() && conns == map[] && this.listenerFd == listenerFd
    {
      this.listenerFd, this.maxClients, this.maxFrameBytes := listenerFd, maxClients, maxFrameBytes;
      interest := new Interest(epoll);
      this.listener, this.control := listener, control;
      conns, closedThisBatch, reported := map[], [], map[];
    }

    /** The connections other than this one are as they should be. */
    ghost predicate Others(fd: int)
      reads this, Objects(), interest, interest.epoll
    {
      && Separate() && interest.Valid() && interest.armed.Keys == conns.Keys
      && (forall f :: f in conns && f != fd ==> conns[f].Valid() && !conns[f].Finished())
      && (interest.epoll.refusals == 0 ==>
            forall f :: f in conns && f != fd ==> interest.armed[f] == (conns[f].outbuf != []))
    }

    /** Forgets a connection the kernel no longer watches. */
    method Drop(fd: int)
      requires Separate() && Tracked() && interest.Valid() && interest.armed.Keys == conns.Keys - {fd}
      requires forall f :: f in conns && f != fd ==> conns[f].Valid() && !conns[f].Finished()
      requires interest.epoll.refusals == 0 ==>
                 forall f :: f in conns && f != fd ==> interest.armed[f] == (conns[f].outbuf != [])
      modifies this
      ensures Valid() && Tracked() && Watching()
      ensures conns == old(conns) - {fd} && closedThisBatch == old(closedThisBatch) + [fd] && reported == old(reported)
    {
      hide Connection.Valid, Connection.Untouched, Connection.Finished, Connection.Apart;
      conns := conns - {fd};
      closedThisBatch := closedThisBatch + [fd];
    }

    method CloseConnection(fd: int)
      requires Others(fd) && Tracked()
      modifies this, interest, interest.epoll
      ensures Valid() && Tracked() && Watching()
      ensures conns == old(conns) - {fd} && closedThisBatch == old(closedThisBatch) + [fd] && reported == old(reported)
    {
      hide Connection.Valid, Connection.Untouched, Connection.Finished, Connection.Apart, Newcomer, Separate;
      interest.Forget(fd);
      Drop(fd);
    }

    /**
     Accepts a client on a descriptor that is not open, which may be one closed in this batch: it is
     registered unless there are too many or the kernel refuses.
     */
    method AcceptOne(fd: int)
      requires Valid() && Tracked() && Watching() && fd !in conns && fd != listenerFd
      modifies this, interest, interest.epoll
      ensures Valid() && Tracked() && Watching()
      ensures closedThisBatch == old(closedThisBatch) && reported == old(reported)
      ensures interest.epoll.refusals >= old(interest.epoll.refusals)
      ensures old(conns.Keys) <= conns.Keys && forall k :: k in old(conns) ==> conns[k] == old(conns)[k]
      ensures conns.Keys == if |old(conns)| < maxClients && interest.epoll.refusals == old(interest.epoll.refusals)
                            then old(conns.Keys) + {fd} else old(conns.Keys)
    {
      hide Connection.Valid, Connection.Untouched, Connection.Finished;
      if |conns| >= maxClients {
        return;
      }
      var conn := new Connection(fd, maxFrameBytes, control);
      var ok := interest.Register(fd);
      if !ok {
        return;
      }
      Enlist(fd, conn);
    }

    /** Adds a new connection the kernel already watches. */
    method Enlist(fd: int, conn: Connection)
      requires Valid() && Tracked() && fd !in conns && fd != listenerFd
      requires conn.fd == fd && conn.handler.control == control
      requires conn.Valid() && !conn.Finished() && conn.Untouched() && forall f :: f in conns ==> conn.Apart(conns[f])
      requires interest.Valid() && fd in interest.armed && !interest.armed[fd]
      requires interest.armed.Keys == conns.Keys + {fd}
      requires interest.epoll.refusals == 0 ==>
                 forall f :: f in conns ==> interest.armed[f] == (conns[f].outbuf != [])
      modifies this
      ensures Valid() && Tracked() && Watching()
      ensures conns == old(conns)[fd := conn] && closedThisBatch == old(closedThisBatch) && reported == old(reported)
    {
      hide Connection.Valid, Connection.Finished;
      conns := conns[fd := conn];
    }

    /** Hands an event to its connection; nothing else is touched. */
    method Deliver(ev: Ready) returns (alive: bool)
      requires Valid() && Tracked() && Watching() && ev.fd in reported && ev.fd !in closedThisBatch
      modifies reported[ev.fd].Parts(), control, interest, interest.epoll
      ensures Others(ev.fd) && Tracked() && reported[ev.fd].Valid()
      ensures alive <==> !reported[ev.fd].Finished()
      ensures alive && interest.epoll.refusals == 0 ==> interest.armed[ev.fd] == (reported[ev.fd].outbuf != [])
      ensures Obeyed(ev, reported[ev.fd], old(CallsOn(reported[ev.fd])), alive)
      ensures !ev.readable && !ev.writable ==> reported[ev.fd].outbuf == old(reported[ev.fd].outbuf)
    {
      hide Connection.Valid, Connection.Untouched, Connection.Finished, ReadEnough, Sent;
      alive := conns[ev.fd].OnEvent(interest, ev.readable, ev.writable);
    }

    /**
     One event of the batch, for a connection that is still the one it was reported for. It
     touches nothing else, does what the event asks for, and closes the connection exactly on a
     hangup or when it is finished.
     */
    method Dispatch(ev: Ready)
      requires Valid() && Tracked() && Watching() && ev.fd in reported && ev.fd !in closedThisBatch
      modifies this, reported[ev.fd].Parts(), control, interest, interest.epoll
      ensures Valid() && Tracked() && Watching() && reported == old(reported) && reported[ev.fd].Valid()
      ensures ev.fd in conns <==> !ev.hangup && !reported[ev.fd].Finished()
      ensures !ev.hangup ==> Obeyed(ev, reported[ev.fd], old(CallsOn(reported[ev.fd])), ev.fd in conns)
      ensures !ev.readable && !ev.writable ==> reported[ev.fd].outbuf == old(reported[ev.fd].outbuf)
      ensures
        || (conns == old(conns) && closedThisBatch == old(closedThisBatch))
        || (conns == old(conns) - {ev.fd} && closedThisBatch == old(closedThisBatch) + [ev.fd])
    {
      hide Connection.Valid, Connection.Untouched, Connection.Finished, Obeyed, Separate, Newcomer;
      if ev.hangup {
        CloseConnection(ev.fd);
        return;
      }
      var alive := Deliver(ev);
      if !alive {
        CloseConnection(ev.fd);
      }
    }

    /** The accept queue was asked until it had no more clients, and every client since then was taken in or refused. */
    ghost predicate Emptied(before: seq<Option<int>>, refusals: nat)
      reads this, listener, interest.epoll
    {
      var now := listener.accepts;
      && before < now && now[|now| - 1].None?
      && forall i :: |before| <= i < |now| - 1 ==>
           now[i].Some? && (now[i].value in conns || |conns| >= maxClients || interest.epoll.refusals > refusals)
    }

    method NextClient() returns (fd: Option<int>)
      requires Valid() && Tracked() && Watching()
      modifies listener
      ensures Valid() && Tracked() && Watching()
      ensures listener.accepts == old(listener.accepts) + [fd]
      ensures fd.Some? ==> fd.value !in conns && fd.value != listenerFd && listener.waiting < old(listener.waiting)
    {
      hide Connection.Valid, Connection.Untouched, Connection.Finished, Separate, Newcomer;
      fd := listener.Accept(conns.Keys + {listenerFd});
    }

    /** Drains the accept queue. */
    method AcceptNewClients()
      requires Valid() && Tracked() && Watching()
      modifies this, interest, interest.epoll, listener
      ensures Valid() && Tracked() && Watching()
      ensures closedThisBatch == old(closedThisBatch) && reported == old(reported)
      ensures forall k :: k in old(conns) ==> k in conns && conns[k] == old(conns)[k]
      ensures Emptied(old(listener.accepts), old(interest.epoll.refusals))
    {
      hide Valid, Tracked, Watching;
      ghost var accepts, refusals := listener.accepts, interest.epoll.refusals;
      while true
        invariant Valid() && Tracked() && Watching()
        invariant closedThisBatch == old(closedThisBatch) && reported == old(reported)
        invariant interest.epoll.refusals >= refusals && accepts <= listener.accepts
        invariant forall k :: k in old(conns) ==> k in conns && conns[k] == old(conns)[k]
        invariant forall i :: |accepts| <= i < |listener.accepts| ==>
                    var fd := listener.accepts[i];
                    fd.Some? && (fd.value in conns || |conns| >= maxClients || interest.epoll.refusals > refusals)
        decreases listener.waiting
      {
        var fd := NextClient();
        if fd.None? {
          return;
        }
        AcceptOne(fd.value);
      }
    }

    /** Forgets the closed descriptors of the previous batch. */
    method BeginBatch()
      requires Valid() && Watching()
      modifies this
      ensures Valid() && Tracked() && Watching() && closedThisBatch == []
      ensures conns == old(conns) && reported == conns && listenerFd !in reported && AllCalls() == old(AllCalls())
    {
      hide Connection.Valid, Connection.Untouched, Connection.Finished;
      closedThisBatch, reported := [], conns;
    }

    /** The calls on every connection so far. */
    ghost function AllCalls(): (m: map<int, Calls>)
      reads this, set fd | fd in conns :: conns[fd].socket
      ensures m.Keys == conns.Keys
    {
      map fd | fd in conns :: CallsOn(conns[fd])
    }

    /** These events have been dealt with, since there were these calls. */
    ghost predicate Done(before: map<int, Calls>, events: seq<Ready>)
      reads this, set fd | fd in reported :: reported[fd], set fd | fd in reported :: reported[fd].socket
    {
      && before.Keys == reported.Keys
      && forall fd :: fd in reported ==> Accounted(reported[fd], fd in closedThisBatch, before[fd], events)
    }

    /** What being tracked says of the connections the events were reported for. */
    lemma TrackedMeans()
      requires Tracked()
      ensures forall fd :: fd in reported ==> reported[fd].fd == fd
      ensures forall a, b :: a in reported && b in reported && a != b ==> reported[a].Apart(reported[b])
      ensures forall fd :: fd in reported && fd !in closedThisBatch ==> fd in conns && conns[fd] == reported[fd]
    {
      hide Connection.Untouched;
    }

    /** An event for a connection that is open and the one it was reported for. */
    method OnConnection(ev: Ready, ghost before: map<int, Calls>, ghost events: seq<Ready>)
      requires Valid() && Tracked() && Watching() && Done(before, events)
      requires ev.fd in reported && ev.fd !in closedThisBatch
      modifies this, reported[ev.fd].Parts(), control, interest, interest.epoll
      ensures Valid() && Tracked() && Watching() && Done(before, events + [ev]) && reported == old(reported)
    {
      hide Connection.Valid, Connection.Finished, Accounted, Obeyed, Answered, Valid, Tracked, Watching;
      TrackedMeans();
      ghost var c := reported[ev.fd];
      ghost var was, empty := CallsOn(c), c.outbuf == [];
      WasAnswered(c, before[ev.fd], events);
      Dispatch(ev);
      AccountedNext(c, ev.fd in closedThisBatch, before[ev.fd], was, empty, events, ev);
      DoneOthers(before, events, ev);
    }

    /** The loop body of a batch. */
    method OneEvent(ev: Ready, ghost before: map<int, Calls>, ghost events: seq<Ready>)
      requires Valid() && Tracked() && Watching() && Done(before, events)
      requires listenerFd !in reported && (ev.fd == listenerFd || ev.fd in reported)
      modifies this, if ev.fd in reported then reported[ev.fd].Parts() else {}
      modifies control, interest, interest.epoll, listener
      ensures Valid() && Tracked() && Watching() && Done(before, events + [ev]) && reported == old(reported)
      ensures if ev.fd == listenerFd then Emptied(old(listener.accepts), old(interest.epoll.refusals))
              else listener.accepts == old(listener.accepts)
    {
      hide Accounted, Valid, Tracked, Watching, Emptied;
      TrackedMeans();
      if ev.fd == listenerFd {
        AcceptNewClients();
        DoneOthers(before, events, ev);
        return;
      }
      if ev.fd in closedThisBatch || ev.fd !in conns {
        DoneOthers(before, events, ev);
        return;
      }
      OnConnection(ev, before, events);
    }

    /** An event for another descriptor, or a closed one, leaves the account as it is. */
    lemma DoneOthers(before: map<int, Calls>, events: seq<Ready>, ev: Ready)
      requires before.Keys == reported.Keys && forall fd :: fd in reported ==> reported[fd].fd == fd
      ensures forall fd :: fd in reported && (fd != ev.fd || fd in closedThisBatch) ==>
                Accounted(reported[fd], fd in closedThisBatch, before[fd], events) ==>
                  Accounted(reported[fd], fd in closedThisBatch, before[fd], events + [ev])
    {
      hide Accounted;
      forall fd | fd in reported && (fd != ev.fd || fd in closedThisBatch) &&
                  Accounted(reported[fd], fd in closedThisBatch, before[fd], events)
        ensures Accounted(reported[fd], fd in closedThisBatch, before[fd], events + [ev])
      {
        AccountedOther(reported[fd], fd in closedThisBatch, before[fd], events, ev);
      }
    }

    /**
     One batch. The events are for descriptors registered when the batch began. Afterwards every
     open connection keeps the reply stream and is watched for room when something is left to send;
     nothing at all has been read, written or run on a connection accepted in this batch, whatever
     events its descriptor had; a connection that was not closed is still the one registered under
     its descriptor, and what its events asked for was done; one that was closed hung up or is
     finished; and the accept queue was drained if one of the events was for it.
     */
    method RunBatch(events: seq<Ready>)
      requires Valid() && Watching()
      requires forall i :: 0 <= i < |events| ==> events[i].fd == listenerFd || events[i].fd in conns
      modifies this, Objects(), control, interest, interest.epoll, listener
      ensures Valid() && Watching() && reported == old(conns)
      ensures forall fd :: fd in conns && !(fd in old(conns) && old(conns)[fd] == conns[fd]) ==> conns[fd].Untouched()
      ensures forall fd :: fd in old(conns) && fd !in closedThisBatch ==> fd in conns && conns[fd] == old(conns)[fd]
      ensures forall fd :: fd in old(conns) ==>
                Accounted(old(conns)[fd], fd in closedThisBatch, old(AllCalls())[fd], events)
      ensures QueueDrained(listenerFd, old(listener.accepts), listener.accepts, events)
    {
      hide Accounted, Valid, Tracked, Watching, QueueDrained, Done, AllCalls, Connection.Untouched;
      ghost var before := AllCalls();
      BeginBatch();
      DoneNone(before);
      NothingDrained(listenerFd, listener.accepts);
      var i := 0;
      while i < |events|
        invariant 0 <= i <= |events|
        invariant Valid() && Tracked() && Watching() && reported == old(conns) && Done(before, events[..i])
        invariant QueueDrained(listenerFd, old(listener.accepts), listener.accepts, events[..i])
      {
        assert events[..i + 1] == events[..i] + [events[i]];
        ghost var accepts := listener.accepts;
        OneEvent(events[i], before, events[..i]);
        DrainedNext(listenerFd, old(listener.accepts), accepts, listener.accepts, events[..i], events[i]);
        i := i + 1;
      }
      assert events[..i] == events;
      DoneMeans(before, events);
      TrackedMeans();
      NewcomersUntouched();
    }

    lemma DoneMeans(before: map<int, Calls>, events: seq<Ready>)
      requires Done(before, events)
      ensures before.Keys == reported.Keys
      ensures forall fd :: fd in reported ==> Accounted(reported[fd], fd in closedThisBatch, before[fd], events)
    {
      hide Accounted;
    }

    lemma NewcomersUntouched()
      requires Tracked()
      ensures forall fd :: fd in conns && !(fd in reported && reported[fd] == conns[fd]) ==> conns[fd].Untouched()
    {
      hide Connection.Untouched;
      assert forall fd :: fd in conns && !(fd in reported && reported[fd] == conns[fd]) ==> Newcomer(fd);
    }

    lemma DoneNone(before: map<int, Calls>)
      requires before == AllCalls() && reported == conns && closedThisBatch == []
      ensures Done(before, [])
    {
      hide Accounted;
      forall fd | fd in reported
        ensures Accounted(reported[fd], false, before[fd], [])
      {
        AccountedNone(reported[fd], before[fd]);
      }
    }
  }
}
