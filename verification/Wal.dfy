/**
 The write-ahead log. `WalState` is the log as a value, with the outcome of each
 append given; the class performs the writes, for any outcome.
 */
module Wal {
  import opened Base
  import opened Decimal
  import opened RespWriter
  import opened RespParser
  import opened WalFormat
  import opened LogFiles

  datatype FsyncPolicy = KAlways | KEverySec | KNo

  datatype Status = KOk | KIoError | KCorrupt

  const REPLAY_FRAME_CAP: nat := 512 * 1024 * 1024
  const REPLAY_CHUNK: nat := 64 * 1024

  /**
   The log file and the writer's bookkeeping. `synced` is how much of the file is known to
   survive a crash, `failures` how many calls on it have failed; `records` are the records
   written completely so far and `torn` the one, if any, whose write failed part-way.
   */
  datatype WalState = WalState(
    policy: FsyncPolicy,
    open: bool,
    file: Bytes,
    synced: nat,
    failures: nat,
    dirty: bool,
    lastFsyncMs: int,
    records: seq<Command>,
    torn: Option<Command>)

  /** How an append went: some bytes landed and the write failed, or all did and fsync answered. */
  datatype Io = Torn(written: nat) | Written(fsyncOk: bool)

  /** The bytes of a record that land when its write fails: never all of them. */
  function TornBytes(cmd: Command, written: nat): (r: Bytes)
    ensures r <= Encode(cmd) && r != Encode(cmd)
  {
    var record := Encode(cmd);
    record[..if written < |record| then written else |record| - 1]
  }

  function Fsynced(w: WalState, ok: bool): (WalState, bool) {
    if ok then (w.(dirty := false, synced := |w.file|), true) else (w.(failures := w.failures + 1), false)
  }

  function Append(w: WalState, cmd: Command, io: Io): (WalState, bool) {
    if !w.open then (w, false)
    else
      match io
      case Torn(n) =>
        (w.(file := w.file + TornBytes(cmd, n), torn := Some(cmd), failures := w.failures + 1), false)
      case Written(ok) =>
        var w' := w.(file := w.file + Encode(cmd), dirty := true, records := w.records + [cmd]);
        if w.policy.KAlways? then Fsynced(w', ok) else (w', true)
  }

  function TickFsync(w: WalState, now: int, ok: bool): (WalState, bool) {
    if !w.policy.KEverySec? || !w.dirty || !w.open || now - w.lastFsyncMs < 1000 then (w, true)
    else
      var (w', done) := Fsynced(w, ok);
      (if done then w'.(lastFsyncMs := now) else w', done)
  }

  // ---- the shape of the file -----------------------------------------------

  /** The complete records, and the one that was cut short. */
  function Attempted(w: WalState): seq<Command> {
    w.records + if w.torn.Some? then [w.torn.value] else []
  }

  /** The file is its complete records, then part of one more record only after a failure. */
  ghost predicate Shaped(w: WalState, failed: bool) {
    && EncodeAll(w.records) <= w.file <= EncodeAll(Attempted(w))
    && (w.torn.Some? ==> failed && w.file != EncodeAll(Attempted(w)))
    && w.synced <= |w.file|
    && (!failed && !w.dirty ==> w.synced == |w.file|)
    && (!failed && w.policy.KAlways? ==> w.synced == |w.file|)
  }

  lemma ShapedMeans(w: WalState, failed: bool)
    requires Shaped(w, failed)
    ensures w.torn.None? ==> w.file == EncodeAll(w.records)
    ensures !failed ==> w.file == EncodeAll(w.records)
  {
    if w.torn.None? {
      assert Attempted(w) == w.records;
    }
  }

  lemma EncodeAllSnoc(recs: seq<Command>, cmd: Command)
    ensures EncodeAll(recs + [cmd]) == EncodeAll(recs) + Encode(cmd)
  {
    EncodeAllAppend(recs, [cmd]);
    EncodeAllOne(cmd);
  }

  /** An append that is reported as failed is the only one that can leave a torn record. */
  lemma AppendShaped(w: WalState, cmd: Command, io: Io)
    requires Shaped(w, false)
    ensures var (w', ok) := Append(w, cmd, io); Shaped(w', !ok) && w.synced <= w'.synced && w.file <= w'.file
  {
    hide Encode, EncodeAll;
    EncodeAllSnoc(w.records, cmd);
    ShapedMeans(w, false);
    var (w', ok) := Append(w, cmd, io);
    if w.open && io.Torn? {
      assert Attempted(w') == w.records + [cmd];
      assert w'.file == EncodeAll(w.records) + TornBytes(cmd, io.written);
    } else {
      assert Attempted(w') == w'.records;
    }
  }

  lemma TickShaped(w: WalState, now: int, ok: bool)
    requires Shaped(w, false)
    ensures var (w', done) := TickFsync(w, now, ok);
            Shaped(w', !done) && w.synced <= w'.synced && w'.file == w.file && w'.records == w.records
  {
  }

  // ---- what replay delivers ------------------------------------------------

  /** The records a file yields on replay. */
  function Delivered(file: Bytes): seq<Command> {
    var p := Run(REPLAY_FRAME_CAP, Line, file);
    if p.Parsed? then p.cmds else []
  }

  /** A file with everything after its first n bytes cut off. */
  function KeptBytes(file: Bytes, n: nat): Bytes {
    if n < |file| then file[..n] else file
  }

  /** Replay would refuse the file: some read prefix does not parse or holds an oversized frame. */
  ghost predicate Damaged(file: Bytes) {
    exists n :: 0 <= n <= |file| && Refused(file[..n])
  }

  predicate Refused(part: Bytes) {
    Feed(REPLAY_FRAME_CAP, Residue(Line, []), part).ProtocolError?
  }

  /** The file is what is left of these records' log, cut at some byte. */
  ghost predicate CutFrom(file: Bytes, recs: seq<Command>) {
    AllEncodable(REPLAY_FRAME_CAP, recs) && file <= EncodeAll(recs)
  }

  /** A log cut anywhere is never damaged, and replay delivers its complete records. */
  lemma CutLogDelivers(recs: seq<Command>, file: Bytes)
    requires AllEncodable(REPLAY_FRAME_CAP, recs) && file <= EncodeAll(recs)
    ensures !Damaged(file)
    ensures Delivered(file) == recs[..CompleteIn(recs, |file|)]
    ensures EncodeAll(Delivered(file)) <= file
  {
    hide Run, CompleteIn, EncodeAll;
    TornTail(REPLAY_FRAME_CAP, recs, file);
    forall n | 0 <= n <= |file|
      ensures !Refused(file[..n])
    {
      TornTail(REPLAY_FRAME_CAP, recs, file[..n]);
      assert [] + file[..n] == file[..n];
    }
  }

  /** After the torn tail is cut off, the file is exactly the delivered records. */
  lemma TruncatedIsClean(recs: seq<Command>, file: Bytes)
    requires AllEncodable(REPLAY_FRAME_CAP, recs) && file <= EncodeAll(recs)
    ensures var d := Delivered(file);
            && |EncodeAll(d)| <= |file|
            && file[..|EncodeAll(d)|] == EncodeAll(d)
            && Delivered(EncodeAll(d)) == d
            && !Damaged(EncodeAll(d))
  {
    hide Run, CompleteIn, EncodeAll, Delivered, Damaged;
    CutLogDelivers(recs, file);
    var d := Delivered(file);
    var k := CompleteIn(recs, |file|);
    assert d == recs[..k];
    CutLogDelivers(d, EncodeAll(d));
    CompleteInIsLargest(d, |EncodeAll(d)|, |d|);
    assert d[..|d|] == d;
  }

  // ---- the class -----------------------------------------------------------

  class Wal {
    const policy: FsyncPolicy
    const log: LogFile
    var open: bool
    var dirty: bool
    var lastFsyncMs: int
    ghost var records: seq<Command>
    ghost var torn: Option<Command>

    ghost function State(): WalState
      reads this, log
    {
      WalState(policy, open, log.bytes, log.synced, log.failures, dirty, lastFsyncMs, records, torn)
    }

    /** A log over the file found on disk, whose complete records are `found`. */
    constructor (policy: FsyncPolicy, log: LogFile, ghost found: seq<Command>)
      ensures this.log == log
      ensures State() == WalState(policy, false, log.bytes, log.synced, log.failures, false, 0, found, None)
    {
      this.policy, this.log, open, dirty, lastFsyncMs, records, torn := policy, log, false, false, 0, found, None;
    }

    static method EncodeRecord(cmd: Command) returns (out: Bytes)
      ensures out == Encode(cmd)
    {
      hide ToString;
      var head := "*" + ToString(|cmd|) + CRLF;
      out := head;
      var i := 0;
      while i < |cmd|
        invariant 0 <= i <= |cmd|
        invariant out + EncodeArgs(cmd[i..]) == Encode(cmd)
      {
        hide Bulk;
        ghost var before := out;
        var arg := cmd[i];
        BulkPieces(before, arg);
        out := out + "$" + ToString(|arg|) + CRLF;
        out := out + arg;
        out := out + CRLF;
        assert cmd[i..][1..] == cmd[i + 1..];
        AppendAssoc(before, Bulk(arg), EncodeArgs(cmd[i + 1..]));
        i := i + 1;
      }
      assert cmd[i..] == [] && out + [] == out;
    }

    static lemma BulkPieces(before: Bytes, arg: Bytes)
      ensures before + "$" + ToString(|arg|) + CRLF + arg + CRLF == before + Bulk(arg)
    {
    }

    /** Writes the whole record, however many calls that takes, unless a call fails. */
    method WriteAll(data: Bytes) returns (ok: bool, ghost written: nat)
      modifies log
      ensures written <= |data| && log.bytes == old(log.bytes) + data[..written] && log.synced == old(log.synced)
      ensures ok <==> written == |data|
      ensures log.failures == old(log.failures) + if ok then 0 else 1
    {
      var off := 0;
      written := 0;
      assert log.bytes == old(log.bytes) + data[..0];
      while off < |data|
        invariant off <= |data| && written == off
        invariant log.bytes == old(log.bytes) + data[..off]
        invariant log.synced == old(log.synced) && log.failures == old(log.failures)
        decreases |data| - off, log.stalls
      {
        var r := log.Write(data[off..]);
        if r.WriteFailed? {
          return false, off;
        }
        if r.Interrupted? {
          continue;
        }
        assert data[..off + r.n] == data[..off] + data[off..][..r.n];
        off := off + r.n;
        written := off;
      }
      assert data[..off] == data;
      ok := true;
    }

    method FsyncNow() returns (st: Status, ghost ok: bool)
      modifies this, log
      ensures old(open) ==> State() == Fsynced(old(State()), ok).0 && (st == KOk <==> ok)
      ensures !old(open) ==> State() == old(State()) && st == KIoError
      ensures st == KOk || st == KIoError
    {
      ok := false;
      if !open {
        return KIoError, false;
      }
      var done := log.Fsync();
      if !done {
        return KIoError, false;
      }
      dirty := false;
      return KOk, true;
    }

    method OpenForAppend() returns (st: Status)
      modifies this, log
      ensures st == KOk || st == KIoError
      ensures st == KOk ==> State() == old(State()).(open := true)
      ensures st != KOk ==> State() == old(State()).(failures := old(log.failures) + 1)
    {
      if open {
        return KOk;
      }
      var isOpen := log.Open();
      if !isOpen {
        return KIoError;
      }
      open := true;
      st := KOk;
    }

    /** Appends a record; `io` says how it went. */
    method AppendRecord(cmd: Command) returns (st: Status, ghost io: Io)
      modifies this, log
      ensures (State(), st == KOk) == Append(old(State()), cmd, io)
      ensures st == KOk || st == KIoError
    {
      io := Torn(0);
      if !open {
        return KIoError, io;
      }
      var record := EncodeRecord(cmd);
      var ok, written := WriteAll(record);
      if !ok {
        assert TornBytes(cmd, written) == record[..written];
        torn := Some(cmd);
        return KIoError, Torn(written);
      }
      assert record[..written] == record;
      dirty := true;
      records := records + [cmd];
      io := Written(true);
      if policy == KAlways {
        var done, synced := FsyncNow();
        return done, Written(synced);
      }
      st := KOk;
    }

    /** The deferred fsync: due a second after the last one, and not before. */
    method Tick(now: int) returns (st: Status, ghost ok: bool)
      modifies this, log
      ensures (State(), st == KOk) == TickFsync(old(State()), now, ok)
      ensures policy.KEverySec? && open && st == KOk && now - old(lastFsyncMs) >= 1000 ==> !dirty
      ensures st == KOk && dirty != old(dirty) ==> log.synced == |log.bytes| && lastFsyncMs == now
      ensures now - old(lastFsyncMs) < 1000 ==> State() == old(State())
    {
      ok := true;
      if policy != KEverySec {
        return KOk, true;
      }
      if !dirty || !open {
        return KOk, true;
      }
      if now - lastFsyncMs < 1000 {
        return KOk, true;
      }
      st, ok := FsyncNow();
      if st == KOk {
        lastFsyncMs := now;
      }
    }

    /**
     Streams the file in chunks of any size and delivers its commands in order. A torn final
     record is cut off; a parse error refuses the file; opening, reading or truncating may fail.
     */
    method Replay() returns (st: Status, delivered: seq<Command>)
      modifies this, log
      ensures log.failures == old(log.failures) + if st == KIoError then 1 else 0
      ensures st == KCorrupt ==> Damaged(old(log.bytes))
      ensures st == KOk ==> !Refused(old(log.bytes)) && delivered == Delivered(old(log.bytes))
      ensures st == KOk ==> log.bytes == KeptBytes(old(log.bytes), |EncodeAll(delivered)|)
      ensures st == KOk ==> log.synced == if log.bytes == old(log.bytes) then old(log.synced)
                                          else Min(old(log.synced), |log.bytes|)
      ensures st == KOk ==> State() == old(State()).(file := log.bytes, synced := log.synced,
                                                     records := delivered, torn := None)
      ensures st != KOk ==> State() == old(State()).(failures := log.failures)
      ensures forall recs :: CutFrom(old(log.bytes), recs) ==>
                && st != KCorrupt
                && (st == KOk ==>
                      && delivered == recs[..CompleteIn(recs, |old(log.bytes)|)]
                      && log.bytes == EncodeAll(delivered))
    {
      hide Feed, Run, EncodeAll, Encode, Damaged, Delivered, Refused, CompleteIn, CutFrom;
      delivered := [];
      CutLogsDeliver(log.bytes);
      var isOpen := log.Open();
      if !isOpen {
        return KIoError, [];
      }
      ghost var file := log.bytes;
      var parser := new RespParser(REPLAY_FRAME_CAP);
      var goodBytes := 0;
      var totalBytes := 0;
      Start();
      while true
        invariant State() == old(State()) && log.bytes == file
        invariant 0 <= totalBytes <= |file|
        invariant parser.Valid() && parser.maxFrameBytes == REPLAY_FRAME_CAP && fresh(parser)
        invariant Feed(REPLAY_FRAME_CAP, Residue(Line, []), file[..totalBytes]) == Ok(delivered, parser.View())
        invariant goodBytes == |EncodeAll(delivered)|
        decreases |file| - totalBytes
      {
        var r := log.Read(totalBytes, REPLAY_CHUNK);
        if r.ReadFailed? {
          return KIoError, delivered;
        }
        if r.EndOfFile? {
          break;
        }
        ghost var seen := file[..totalBytes];
        totalBytes := totalBytes + |r.bytes|;
        assert file[..totalBytes] == seen + r.bytes;
        FeedThen(REPLAY_FRAME_CAP, Residue(Line, []), seen, r.bytes);
        var error, cmds := parser.FeedChunk(r.bytes);
        if error.Some? {
          FeedDelivers(file[..totalBytes]);
          DamagedBy(file, totalBytes);
          return KCorrupt, delivered;
        }
        var size := SizeOf(cmds);
        EncodeAllAppend(delivered, cmds);
        delivered := delivered + cmds;
        goodBytes := goodBytes + size;
      }
      assert file[..totalBytes] == file;
      FeedDelivers(file);
      if goodBytes < totalBytes {
        var cut := log.Truncate(goodBytes);
        if !cut {
          return KIoError, delivered;
        }
      }
      records, torn := delivered, None;
      st := KOk;
    }

    static lemma FeedDelivers(file: Bytes)
      ensures var r := Feed(REPLAY_FRAME_CAP, Residue(Line, []), file);
              (Refused(file) <==> r.ProtocolError?) && (r.Ok? ==> r.cmds == Delivered(file))
    {
      assert [] + file == file;
    }

    static lemma DamagedBy(file: Bytes, n: nat)
      requires n <= |file| && Refused(file[..n])
      ensures Damaged(file)
    {
    }

    static lemma CutLogsDeliver(file: Bytes)
      ensures forall recs :: CutFrom(file, recs) ==>
                && !Damaged(file)
                && Delivered(file) == recs[..CompleteIn(recs, |file|)]
                && EncodeAll(Delivered(file)) <= file
    {
      forall recs | CutFrom(file, recs)
        ensures !Damaged(file)
        ensures Delivered(file) == recs[..CompleteIn(recs, |file|)]
        ensures EncodeAll(Delivered(file)) <= file
      {
        CutLogDelivers(recs, file);
      }
    }

    static lemma Start()
      ensures Feed(REPLAY_FRAME_CAP, Residue(Line, []), []) == Ok([], Residue(Line, []))
      ensures EncodeAll([]) == []
      ensures forall s: Bytes :: s[..0] == []
    {
    }

    /** The bytes the parsed commands take when encoded again. */
    static method SizeOf(cmds: seq<Command>) returns (size: nat)
      ensures size == |EncodeAll(cmds)|
    {
      size := 0;
      var i := 0;
      while i < |cmds|
        invariant 0 <= i <= |cmds|
        invariant size + |EncodeAll(cmds[i..])| == |EncodeAll(cmds)|
      {
        hide Encode;
        var record := EncodeRecord(cmds[i]);
        assert cmds[i..][1..] == cmds[i + 1..];
        size := size + |record|;
        i := i + 1;
      }
    }
  }
}
