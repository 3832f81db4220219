/**
 The incremental RESP2 command parser: a three-state machine over a retained
 buffer. `Run` is the meaning of a byte string; the class below computes it
 chunk by chunk with a cursor into its buffer.
 */
module RespParser {
  import opened Base
  import opened Decimal

  const MAX_ARGS: int := 1024 * 1024

  /** What the parser is waiting for, with what it has decoded of the current frame. */
  datatype Mode =
    | Line
    | BulkHead(argc: int, args: Command)
    | BulkBody(argc: int, args: Command, len: nat)

  /** One turn of the parse loop over the unconsumed bytes; a bad line has been consumed, a bad payload not. */
  datatype Move =
    | Stuck
    | Bad(error: Bytes, skip: nat)
    | Advance(used: nat, mode: Mode, out: seq<Command>)

  /** The whole parse loop: commands found, or an error; and what the parser is left with. */
  datatype Parsed =
    | Parsed(cmds: seq<Command>, mode: Mode, rest: Bytes)
    | Failed(error: Bytes, mode: Mode, rest: Bytes)

  const ERR_MULTIBULK: Bytes := "ERR Protocol error: invalid multibulk length"
  const ERR_DOLLAR: Bytes := "ERR Protocol error: expected '$', got something else"
  const ERR_BULK: Bytes := "ERR Protocol error: invalid bulk length"
  const ERR_CRLF: Bytes := "ERR Protocol error: bulk payload not terminated by CRLF"
  const ERR_TOO_BIG: Bytes := "ERR Protocol error: too big inline request"

  // ---- lines ---------------------------------------------------------------

  /** Index of the first newline, or the length when there is none. */
  function NewlineAt(buf: Bytes): (i: nat)
    ensures i <= |buf|
    ensures '\n' !in buf[..i]
    ensures i < |buf| ==> buf[i] == '\n'
  {
    if buf == [] || buf[0] == '\n' then 0
    else
      var j := NewlineAt(buf[1..]);
      assert buf[..1 + j] == [buf[0]] + buf[1..][..j];
      1 + j
  }

  lemma NewlineUnique(buf: Bytes, i: nat)
    requires i < |buf| && buf[i] == '\n' && '\n' !in buf[..i]
    ensures NewlineAt(buf) == i
  {
  }

  /** A bare newline is tolerated: the carriage return is stripped when present. */
  function StripCr(line: Bytes): Bytes {
    if line != [] && line[|line| - 1] == '\r' then line[..|line| - 1] else line
  }

  // ---- inline commands -----------------------------------------------------

  predicate IsSpace(c: char) {
    c == ' ' || c == '\t'
  }

  predicate IsWord(w: Bytes) {
    w != [] && forall i :: 0 <= i < |w| ==> !IsSpace(w[i])
  }

  function WordLength(line: Bytes): (n: nat)
    ensures n <= |line|
    ensures forall i :: 0 <= i < n ==> !IsSpace(line[i])
    ensures n < |line| ==> IsSpace(line[n])
  {
    if line == [] || IsSpace(line[0]) then 0 else 1 + WordLength(line[1..])
  }

  /** The maximal space-free runs of a line, in order. */
  function Words(line: Bytes): seq<Bytes> {
    if line == [] then []
    else if IsSpace(line[0]) then Words(line[1..])
    else
      var n := WordLength(line);
      [line[..n]] + Words(line[n..])
  }

  lemma NoWords()
    ensures Words([]) == []
  {
  }

  lemma WordsSkip(line: Bytes, i: nat)
    requires i < |line| && IsSpace(line[i])
    ensures Words(line[i..]) == Words(line[i + 1..])
  {
  }

  lemma WordsTake(line: Bytes, start: nat, i: nat)
    requires start < i <= |line|
    requires forall j :: start <= j < i ==> !IsSpace(line[j])
    requires i < |line| ==> IsSpace(line[i])
    ensures Words(line[start..]) == [line[start..i]] + Words(line[i..])
  {
    var tail := line[start..];
    var n := WordLength(tail);
    assert forall k :: 0 <= k < i - start ==> tail[k] == line[start + k];
    assert i - start <= n && n <= i - start;
    assert tail[..n] == line[start..i] && tail[n..] == line[i..];
  }

  function Join(words: seq<Bytes>): Bytes {
    if words == [] then []
    else if |words| == 1 then words[0]
    else words[0] + " " + Join(words[1..])
  }

  /** Typing words separated by single spaces yields exactly those words. */
  lemma {:induction false} WordsOfJoin(words: seq<Bytes>)
    requires forall i :: 0 <= i < |words| ==> IsWord(words[i])
    ensures Words(Join(words)) == words
  {
    if words != [] {
      var line := Join(words);
      var w := words[0];
      assert line[..|w|] == w;
      assert forall i :: 0 <= i < |w| ==> line[i] == w[i];
      if |words| == 1 {
        assert WordLength(line) == |w| && line[|w|..] == [];
      } else {
        assert line[|w|] == ' ';
        assert WordLength(line) == |w|;
        assert line[|w|..][1..] == Join(words[1..]);
        WordsOfJoin(words[1..]);
      }
    }
  }

  // ---- the machine ---------------------------------------------------------

  function LineMove(max: nat, line: Bytes, used: nat): Move {
    if line == [] then Advance(used, Line, [])
    else if line[0] == '*' then
      var n := ParseI64(line[1..]);
      if n.None? then Bad(ERR_MULTIBULK, used)
      else if n.value <= 0 then Advance(used, Line, [])
      else if n.value > MAX_ARGS || n.value > max then Bad(ERR_MULTIBULK, used)
      else Advance(used, BulkHead(n.value, []), [])
    else
      var cmd := Words(line);
      Advance(used, Line, if cmd == [] then [] else [cmd])
  }

  function HeadMove(max: nat, argc: int, args: Command, line: Bytes, used: nat): Move {
    if line == [] || line[0] != '$' then Bad(ERR_DOLLAR, used)
    else
      var n := ParseI64(line[1..]);
      if n.None? then Bad(ERR_BULK, used)
      else if n.value < 0 || n.value + 2 > max then Bad(ERR_BULK, used)
      else Advance(used, BulkBody(argc, args, n.value), [])
  }

  function Step(max: nat, mode: Mode, buf: Bytes): (m: Move)
    ensures m.Advance? ==> m.used <= |buf|
    ensures m.Bad? ==> m.skip <= |buf|
    ensures m.Advance? && m.used == 0 ==> mode.BulkHead? && m.mode.Line?
  {
    match mode
    case Line =>
      var nl := NewlineAt(buf);
      if nl == |buf| then Stuck else LineMove(max, StripCr(buf[..nl]), nl + 1)
    case BulkHead(argc, args) =>
      if |args| == argc then Advance(0, Line, [args])
      else
        var nl := NewlineAt(buf);
        if nl == |buf| then Stuck else HeadMove(max, argc, args, StripCr(buf[..nl]), nl + 1)
    case BulkBody(argc, args, len) =>
      if |buf| < len + 2 then Stuck
      else if buf[len] != '\r' || buf[len + 1] != '\n' then Bad(ERR_CRLF, 0)
      else Advance(len + 2, BulkHead(argc, args + [buf[..len]]), [])
  }

  function Prepend(out: seq<Command>, p: Parsed): Parsed {
    match p
    case Parsed(cmds, mode, rest) => Parsed(out + cmds, mode, rest)
    case Failed(e, mode, rest) => Failed(e, mode, rest)
  }

  /** The parse loop, run until it is stuck or fails. */
  function Run(max: nat, mode: Mode, buf: Bytes): (p: Parsed)
    ensures p.Parsed? ==> Step(max, p.mode, p.rest).Stuck?
    ensures |p.rest| <= |buf|
    decreases |buf|, if mode.BulkHead? then 1 else 0
  {
    match Step(max, mode, buf)
    case Stuck => Parsed([], mode, buf)
    case Bad(e, skip) => Failed(e, mode, buf[skip..])
    case Advance(used, mode', out) => Prepend(out, Run(max, mode', buf[used..]))
  }

  lemma PrependTwice(a: seq<Command>, b: seq<Command>, p: Parsed)
    ensures Prepend(a, Prepend(b, p)) == Prepend(a + b, p)
    ensures Prepend([], p) == p
  {
  }

  /** A move that was possible is not changed by bytes arriving later. */
  lemma StepExtend(max: nat, mode: Mode, buf: Bytes, more: Bytes)
    requires !Step(max, mode, buf).Stuck?
    ensures Step(max, mode, buf + more) == Step(max, mode, buf)
  {
    if mode.BulkBody? {
      assert (buf + more)[..mode.len] == buf[..mode.len];
    } else if mode.Line? || |mode.args| != mode.argc {
      var nl := NewlineAt(buf);
      assert (buf + more)[..nl] == buf[..nl];
      NewlineUnique(buf + more, nl);
    }
  }

  /** What parsing `a` leaves, continued with the bytes `b`. */
  function Resume(max: nat, p: Parsed, b: Bytes): Parsed {
    match p
    case Parsed(cmds, mode, rest) => Prepend(cmds, Run(max, mode, rest + b))
    case Failed(e, mode, rest) => Failed(e, mode, rest + b)
  }

  /** Parsing a concatenation is parsing the first part and resuming with the second. */
  lemma {:induction false} RunSplit(max: nat, mode: Mode, a: Bytes, b: Bytes)
    ensures Run(max, mode, a + b) == Resume(max, Run(max, mode, a), b)
    decreases |a|, if mode.BulkHead? then 1 else 0
  {
    var m := Step(max, mode, a);
    if m.Stuck? {
      PrependTwice([], [], Run(max, mode, a + b));
    } else {
      StepExtend(max, mode, a, b);
      if m.Bad? {
        assert (a + b)[m.skip..] == a[m.skip..] + b;
      } else {
        assert (a + b)[m.used..] == a[m.used..] + b;
        RunSplit(max, m.mode, a[m.used..], b);
        var p := Run(max, m.mode, a[m.used..]);
        if p.Parsed? {
          PrependTwice(m.out, p.cmds, Run(max, p.mode, p.rest + b));
        }
      }
    }
  }

  // ---- feeding chunks ------------------------------------------------------

  /** The part of the parser that survives between two calls of feed. */
  datatype Residue = Residue(mode: Mode, buf: Bytes)

  datatype FeedResult =
    | Ok(cmds: seq<Command>, next: Residue)
    | ProtocolError(error: Bytes, next: Residue)

  /** One call of feed. A protocol error drops the commands found so far but not the parser's position. */
  function Feed(max: nat, st: Residue, chunk: Bytes): FeedResult {
    match Run(max, st.mode, st.buf + chunk)
    case Parsed(cmds, mode, rest) =>
      if |rest| > max then ProtocolError(ERR_TOO_BIG, Residue(mode, rest)) else Ok(cmds, Residue(mode, rest))
    case Failed(e, mode, rest) => ProtocolError(e, Residue(mode, rest))
  }

  /** Feeding a list of chunks, stopping at the first protocol error. */
  function FeedAll(max: nat, st: Residue, chunks: seq<Bytes>): FeedResult
    decreases |chunks|
  {
    if chunks == [] then Ok([], st)
    else
      match Feed(max, st, chunks[0])
      case ProtocolError(e, left) => ProtocolError(e, left)
      case Ok(cmds, next) =>
        match FeedAll(max, next, chunks[1..])
        case ProtocolError(e, left) => ProtocolError(e, left)
        case Ok(more, last) => Ok(cmds + more, last)
  }

  /** The residue is at a point where the loop has nothing more to do. */
  predicate Settled(max: nat, st: Residue) {
    Step(max, st.mode, st.buf).Stuck? && |st.buf| <= max
  }

  /** Feeding two chunks that both parse is feeding their concatenation. */
  lemma FeedThen(max: nat, st: Residue, a: Bytes, b: Bytes)
    requires Feed(max, st, a).Ok?
    ensures var first := Feed(max, st, a);
            Feed(max, st, a + b) == match Feed(max, first.next, b)
                                    case Ok(more, last) => Ok(first.cmds + more, last)
                                    case ProtocolError(e, left) => ProtocolError(e, left)
  {
    hide Run;
    RunSplit(max, st.mode, st.buf + a, b);
    assert st.buf + (a + b) == (st.buf + a) + b;
  }

  lemma FeedNothing(max: nat, st: Residue)
    requires Settled(max, st)
    ensures Feed(max, st, []) == Ok([], st)
  {
    assert st.buf + [] == st.buf;
  }

  /** Chunk independence: piecewise success is success in one piece, with the same outcome. */
  lemma {:induction false} PiecewiseIsWhole(max: nat, st: Residue, chunks: seq<Bytes>)
    requires Settled(max, st)
    requires FeedAll(max, st, chunks).Ok?
    ensures Feed(max, st, Flatten(chunks)) == FeedAll(max, st, chunks)
    ensures Settled(max, FeedAll(max, st, chunks).next)
    decreases |chunks|
  {
    if chunks == [] {
      FeedNothing(max, st);
    } else {
      PiecewiseIsWhole(max, Feed(max, st, chunks[0]).next, chunks[1..]);
      FeedThen(max, st, chunks[0], Flatten(chunks[1..]));
    }
  }

  /** Once `bytes` have arrived, an incomplete frame waits with at most `max` bytes. */
  predicate TailFits(max: nat, st: Residue, bytes: Bytes) {
    var p := Run(max, st.mode, st.buf + bytes);
    p.Parsed? ==> |p.rest| <= max
  }

  /** The same at the end of every chunk. */
  predicate TailsFit(max: nat, st: Residue, chunks: seq<Bytes>) {
    forall i :: 0 <= i <= |chunks| ==> TailFits(max, st, Flatten(chunks[..i]))
  }

  lemma TailFitsLater(max: nat, st: Residue, a: Bytes, b: Bytes)
    requires Run(max, st.mode, st.buf + a).Parsed?
    requires TailFits(max, st, a + b)
    ensures var p := Run(max, st.mode, st.buf + a); TailFits(max, Residue(p.mode, p.rest), b)
  {
    hide Run;
    RunSplit(max, st.mode, st.buf + a, b);
    assert st.buf + (a + b) == (st.buf + a) + b;
  }

  lemma TailsFitRest(max: nat, st: Residue, chunks: seq<Bytes>)
    requires chunks != [] && TailsFit(max, st, chunks)
    requires Run(max, st.mode, st.buf + chunks[0]).Parsed?
    ensures TailFits(max, st, chunks[0])
    ensures var p := Run(max, st.mode, st.buf + chunks[0]);
            TailsFit(max, Residue(p.mode, p.rest), chunks[1..])
  {
    hide Run;
    var p := Run(max, st.mode, st.buf + chunks[0]);
    forall i | 0 <= i <= |chunks[1..]|
      ensures TailFits(max, st, chunks[0] + Flatten(chunks[1..][..i]))
    {
      assert chunks[..i + 1][1..] == chunks[1..][..i];
      assert TailFits(max, st, Flatten(chunks[..i + 1]));
    }
    forall i | 0 <= i <= |chunks[1..]|
      ensures TailFits(max, Residue(p.mode, p.rest), Flatten(chunks[1..][..i]))
    {
      TailFitsLater(max, st, chunks[0], Flatten(chunks[1..][..i]));
    }
    assert chunks[1..][..0] == [] && chunks[0] + Flatten([]) == chunks[0];
    assert TailFits(max, st, chunks[0] + Flatten(chunks[1..][..0]));
  }

  lemma FeedFirst(max: nat, st: Residue, a: Bytes, b: Bytes)
    requires Feed(max, st, a + b).Ok?
    ensures Run(max, st.mode, st.buf + a).Parsed?
    ensures TailFits(max, st, a) ==> Feed(max, st, a).Ok? && Settled(max, Feed(max, st, a).next)
  {
    hide Run;
    RunSplit(max, st.mode, st.buf + a, b);
    assert st.buf + (a + b) == (st.buf + a) + b;
  }

  /** The converse: success in one piece is piecewise success when no cut leaves too much. */
  lemma {:induction false} WholeIsPiecewise(max: nat, st: Residue, chunks: seq<Bytes>)
    requires Settled(max, st)
    requires Feed(max, st, Flatten(chunks)).Ok?
    requires TailsFit(max, st, chunks)
    ensures FeedAll(max, st, chunks) == Feed(max, st, Flatten(chunks))
    decreases |chunks|
  {
    if chunks == [] {
      FeedNothing(max, st);
    } else {
      FeedFirst(max, st, chunks[0], Flatten(chunks[1..]));
      TailsFitRest(max, st, chunks);
      FeedThen(max, st, chunks[0], Flatten(chunks[1..]));
      WholeIsPiecewise(max, Feed(max, st, chunks[0]).next, chunks[1..]);
    }
  }

  lemma {:induction false} FeedAllPrefix(max: nat, st: Residue, chunks: seq<Bytes>, i: nat)
    requires FeedAll(max, st, chunks).Ok? && i <= |chunks|
    ensures FeedAll(max, st, chunks[..i]).Ok?
    decreases |chunks|
  {
    hide Feed;
    if i > 0 {
      assert chunks[..i][1..] == chunks[1..][..i - 1] && chunks[..i][0] == chunks[0];
      FeedAllPrefix(max, Feed(max, st, chunks[0]).next, chunks[1..], i - 1);
    }
  }

  /** Exactly when a chunking parses: the whole parses and no cut leaves too much waiting. */
  lemma ChunkIndependence(max: nat, st: Residue, chunks: seq<Bytes>)
    requires Settled(max, st)
    ensures FeedAll(max, st, chunks).Ok? <==>
            Feed(max, st, Flatten(chunks)).Ok? && TailsFit(max, st, chunks)
    ensures FeedAll(max, st, chunks).Ok? ==> FeedAll(max, st, chunks) == Feed(max, st, Flatten(chunks))
  {
    if FeedAll(max, st, chunks).Ok? {
      PiecewiseIsWhole(max, st, chunks);
      forall i | 0 <= i <= |chunks|
        ensures TailFits(max, st, Flatten(chunks[..i]))
      {
        FeedAllPrefix(max, st, chunks, i);
        PiecewiseIsWhole(max, st, chunks[..i]);
      }
    }
    if Feed(max, st, Flatten(chunks)).Ok? && TailsFit(max, st, chunks) {
      WholeIsPiecewise(max, st, chunks);
    }
  }

  // ---- memory bounds -------------------------------------------------------

  /** Declared sizes were checked before anything was stored on their behalf. */
  predicate BoundedMode(max: nat, mode: Mode) {
    match mode
    case Line => true
    case BulkHead(argc, args) =>
      1 <= argc <= MAX_ARGS && argc <= max && |args| <= argc && ArgsFit(max, args)
    case BulkBody(argc, args, len) =>
      1 <= argc <= MAX_ARGS && argc <= max && |args| < argc && ArgsFit(max, args) && len + 2 <= max
  }

  predicate ArgsFit(max: nat, args: Command) {
    forall i :: 0 <= i < |args| ==> |args[i]| + 2 <= max
  }

  /** Whatever bytes arrive, what the parser retains stays within the frame limits. */
  lemma {:induction false} RunBounded(max: nat, mode: Mode, buf: Bytes)
    requires BoundedMode(max, mode)
    ensures BoundedMode(max, Run(max, mode, buf).mode)
    decreases |buf|, if mode.BulkHead? then 1 else 0
  {
    var m := Step(max, mode, buf);
    if m.Advance? {
      RunBounded(max, m.mode, buf[m.used..]);
    }
  }

  lemma FeedBounded(max: nat, st: Residue, chunk: Bytes)
    requires BoundedMode(max, st.mode)
    ensures var r := Feed(max, st, chunk);
            && BoundedMode(max, r.next.mode)
            && (r.Ok? ==> |r.next.buf| <= max && Settled(max, r.next))
            && (r.ProtocolError? ==> |r.next.buf| <= |st.buf| + |chunk|)
  {
    RunBounded(max, st.mode, st.buf + chunk);
  }

  // ---- the class -----------------------------------------------------------

  datatype State = KLine | KBulkHead | KBulkBody

  class RespParser {
    const maxFrameBytes: nat
    var buf: Bytes
    var cursor: nat
    var state: State
    var pendingArgc: int
    var bulkLen: nat
    var args: Command

    ghost predicate Valid()
      reads this
    {
      cursor <= |buf|
    }

    ghost function ModeNow(): Mode
      reads this
    {
      match state
      case KLine => Line
      case KBulkHead => BulkHead(pendingArgc, args)
      case KBulkBody => BulkBody(pendingArgc, args, bulkLen)
    }

    ghost function Rest(): Bytes
      requires Valid()
      reads this
    {
      buf[cursor..]
    }

    ghost function View(): Residue
      requires Valid()
      reads this
    {
      Residue(ModeNow(), Rest())
    }

    constructor (maxFrameBytes: nat)
      ensures this.maxFrameBytes == maxFrameBytes
      ensures Valid() && cursor == 0 && View() == Residue(Line, [])
    {
      this.maxFrameBytes := maxFrameBytes;
      buf, cursor, state, pendingArgc, bulkLen, args := [], 0, KLine, 0, 0, [];
    }

    method TakeLine() returns (ok: bool, line: Bytes)
      requires Valid()
      modifies this`cursor
      ensures Valid()
      ensures ok == ('\n' in old(Rest()))
      ensures !ok ==> cursor == old(cursor)
      ensures ok ==> line == StripCr(old(Rest())[..NewlineAt(old(Rest()))])
      ensures ok ==> cursor == old(cursor) + NewlineAt(old(Rest())) + 1
    {
      var nl := cursor;
      while nl < |buf| && buf[nl] != '\n'
        invariant cursor <= nl <= |buf|
        invariant '\n' !in buf[cursor..nl]
      {
        nl := nl + 1;
      }
      line := [];
      ghost var rest := Rest();
      assert rest[..nl - cursor] == buf[cursor..nl];
      if nl == |buf| {
        return false, [];
      }
      NewlineUnique(rest, nl - cursor);
      var end := nl;
      if end > cursor && buf[end - 1] == '\r' {
        end := end - 1;
      }
      line := buf[cursor..end];
      assert line == StripCr(rest[..nl - cursor]);
      cursor := nl + 1;
      ok := true;
    }

    static method SplitInline(line: Bytes) returns (out: seq<Bytes>)
      ensures out == Words(line)
    {
      hide Words;
      out := [];
      var i := 0;
      assert line[0..] == line && [] + Words(line) == Words(line);
      while i < |line|
        invariant i <= |line|
        invariant Words(line) == out + Words(line[i..])
      {
        while i < |line| && IsSpace(line[i])
          invariant i <= |line|
          invariant Words(line) == out + Words(line[i..])
        {
          WordsSkip(line, i);
          i := i + 1;
        }
        if i >= |line| {
          break;
        }
        var start := i;
        while i < |line| && !IsSpace(line[i])
          invariant start <= i <= |line|
          invariant forall j :: start <= j < i ==> !IsSpace(line[j])
        {
          i := i + 1;
        }
        WordsTake(line, start, i);
        AppendAssoc(out, [line[start..i]], Words(line[i..]));
        out := out + [line[start..i]];
      }
      assert line[i..] == [];
      NoWords();
      assert out + [] == out;
    }

    /** One iteration of the parse loop between frames. */
    method LineTurn() returns (move: Move)
      requires Valid() && state.KLine?
      modifies this
      ensures Valid() && buf == old(buf)
      ensures move == Step(maxFrameBytes, old(ModeNow()), old(Rest()))
      ensures move.Stuck? ==> cursor == old(cursor) && ModeNow() == old(ModeNow())
      ensures move.Advance? ==> cursor == old(cursor) + move.used && ModeNow() == move.mode
      ensures move.Bad? ==> cursor == old(cursor) + move.skip && ModeNow() == old(ModeNow())
    {
      var from := cursor;
      var ok, line := TakeLine();
      if !ok {
        return Stuck;
      }
      var used := cursor - from;
      if line == [] {
        return Advance(used, Line, []);
      }
      if line[0] == '*' {
        var n := ParseI64(line[1..]);
        if n.None? {
          return Bad(ERR_MULTIBULK, cursor - from);
        }
        if n.value <= 0 {
          return Advance(used, Line, []);
        }
        if n.value > MAX_ARGS || n.value > maxFrameBytes {
          return Bad(ERR_MULTIBULK, cursor - from);
        }
        pendingArgc, args, state := n.value, [], KBulkHead;
        return Advance(used, BulkHead(n.value, []), []);
      }
      var cmd := SplitInline(line);
      return Advance(used, Line, if cmd == [] then [] else [cmd]);
    }

    /** One iteration of the parse loop where a "$<len>" header is due. */
    method HeadTurn() returns (move: Move)
      requires Valid() && state.KBulkHead?
      modifies this
      ensures Valid() && buf == old(buf)
      ensures move == Step(maxFrameBytes, old(ModeNow()), old(Rest()))
      ensures move.Stuck? ==> cursor == old(cursor) && ModeNow() == old(ModeNow())
      ensures move.Advance? ==> cursor == old(cursor) + move.used && ModeNow() == move.mode
      ensures move.Bad? ==> cursor == old(cursor) + move.skip && ModeNow() == old(ModeNow())
    {
      var from := cursor;
      if |args| == pendingArgc {
        move := Advance(0, Line, [args]);
        args, state := [], KLine;
        return;
      }
      var ok, line := TakeLine();
      if !ok {
        return Stuck;
      }
      if line == [] || line[0] != '$' {
        return Bad(ERR_DOLLAR, cursor - from);
      }
      var n := ParseI64(line[1..]);
      if n.None? {
        return Bad(ERR_BULK, cursor - from);
      }
      if n.value < 0 || n.value + 2 > maxFrameBytes {
        return Bad(ERR_BULK, cursor - from);
      }
      bulkLen, state := n.value, KBulkBody;
      return Advance(cursor - from, BulkBody(pendingArgc, args, bulkLen), []);
    }

    /** One iteration of the parse loop where a payload is due; any bytes may be payload. */
    method BodyTurn() returns (move: Move)
      requires Valid() && state.KBulkBody?
      modifies this
      ensures Valid() && buf == old(buf)
      ensures move == Step(maxFrameBytes, old(ModeNow()), old(Rest()))
      ensures move.Stuck? ==> cursor == old(cursor) && ModeNow() == old(ModeNow())
      ensures move.Advance? ==> cursor == old(cursor) + move.used && ModeNow() == move.mode
      ensures move.Bad? ==> cursor == old(cursor) + move.skip && ModeNow() == old(ModeNow())
    {
      ghost var rest := Rest();
      var need := bulkLen + 2;
      if |buf| - cursor < need {
        return Stuck;
      }
      var term := cursor + bulkLen;
      if buf[term] != '\r' || buf[term + 1] != '\n' {
        return Bad(ERR_CRLF, 0);
      }
      assert rest[..bulkLen] == buf[cursor..term];
      args := args + [buf[cursor..term]];
      cursor := term + 2;
      state := KBulkHead;
      return Advance(need, BulkHead(pendingArgc, args), []);
    }

    /** The parse loop: moves until it is stuck or fails. */
    method ParseLoop() returns (error: Option<Bytes>, cmds: seq<Command>)
      requires Valid()
      modifies this
      ensures Valid() && buf == old(buf)
      ensures var p := Run(maxFrameBytes, old(ModeNow()), old(Rest()));
              && View() == Residue(p.mode, p.rest)
              && error == (if p.Failed? then Some(p.error) else None)
              && (p.Parsed? ==> cmds == p.cmds)
    {
      hide Step;
      cmds := [];
      ghost var goal := Run(maxFrameBytes, ModeNow(), Rest());
      PrependTwice([], [], goal);
      while true
        invariant Valid() && buf == old(buf)
        invariant goal == Prepend(cmds, Run(maxFrameBytes, ModeNow(), Rest()))
        decreases |buf| - cursor, if state.KBulkHead? then 1 else 0
      {
        ghost var rest := Rest();
        var move;
        if state.KLine? {
          move := LineTurn();
        } else if state.KBulkHead? {
          move := HeadTurn();
        } else {
          move := BodyTurn();
        }
        match move {
          case Stuck =>
            return None, cmds;
          case Bad(e, skip) =>
            assert rest[skip..] == Rest();
            return Some(e), [];
          case Advance(used, mode, out) =>
            assert rest[used..] == Rest();
            PrependTwice(cmds, out, Run(maxFrameBytes, mode, Rest()));
            cmds := cmds + out;
        }
      }
    }

    /** Consumes a chunk; the object holds the residue `Feed` describes, also after a protocol error. */
    method FeedChunk(bytes: Bytes) returns (error: Option<Bytes>, cmds: seq<Command>)
      requires Valid()
      modifies this
      ensures Valid() && View() == Feed(maxFrameBytes, old(View()), bytes).next
      ensures match Feed(maxFrameBytes, old(View()), bytes)
              case ProtocolError(e, _) => error == Some(e) && cmds == []
              case Ok(c, _) => error == None && cmds == c && cursor == 0
    {
      hide Run;
      ghost var was := View();
      buf := buf + bytes;
      assert Rest() == was.buf + bytes;
      error, cmds := ParseLoop();
      if error.Some? {
        return error, [];
      }
      if |buf| - cursor > maxFrameBytes {
        return Some(ERR_TOO_BIG), [];
      }
      if cursor > 0 {
        buf := buf[cursor..];
        cursor := 0;
      }
    }
  }
}
