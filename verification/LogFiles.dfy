/**
 The log file and the clock as the operating system keeps them. Any call on the file may fail;
 what it holds, how much of it is known to survive a crash, how many calls have failed and what
 the clock has shown is recorded here, and nothing but these calls can change the record.
 */
module LogFiles {
  import opened Base

  datatype WriteResult = Wrote(n: nat) | Interrupted | WriteFailed

  datatype ReadResult = Chunk(bytes: Bytes) | EndOfFile | ReadFailed

  class LogFile {
    var bytes: Bytes
    ghost var synced: nat
    ghost var failures: nat
    // How many more calls make no progress without failing: any number, but not forever.
    var stalls: nat

    /** A file found on disk is all there. */
    constructor (bytes: Bytes)
      ensures this.bytes == bytes && synced == |bytes| && failures == 0
    {
      this.bytes, synced, failures, stalls := bytes, |bytes|, 0, *;
    }

    /** Creating the directory, or opening the file for reading or appending. */
    method Open() returns (ok: bool)
      modifies this`failures
      ensures failures == old(failures) + if ok then 0 else 1
    {
      ok := *;
      failures := failures + if ok then 0 else 1;
    }

    /** write: some bytes from the front are appended, or none. */
    method Write(data: Bytes) returns (r: WriteResult)
      modifies this
      ensures synced == old(synced) && failures == old(failures) + if r.WriteFailed? then 1 else 0
      ensures r.Wrote? ==> r.n <= |data| && bytes == old(bytes) + data[..r.n]
      ensures !r.Wrote? ==> bytes == old(bytes)
      ensures r.Interrupted? || (r.Wrote? && r.n == 0) ==> stalls < old(stalls)
    {
      r := *;
      if r.Wrote? {
        var n: nat :| n <= |data|;
        r := Wrote(n);
      }
      if stalls == 0 && (r.Interrupted? || (r.Wrote? && r.n == 0)) {
        r := WriteFailed;
      }
      if r.WriteFailed? {
        failures := failures + 1;
      } else if r.Wrote? {
        bytes := bytes + data[..r.n];
      }
      if stalls > 0 {
        stalls := stalls - 1;
      }
    }

    /** fsync: on success everything in the file survives a crash. */
    method Fsync() returns (ok: bool)
      modifies this
      ensures bytes == old(bytes)
      ensures ok ==> synced == |bytes| && failures == old(failures)
      ensures !ok ==> synced == old(synced) && failures == old(failures) + 1
    {
      ok := *;
      if ok {
        synced := |bytes|;
      } else {
        failures := failures + 1;
      }
    }

    /** read: the next bytes, as many as it likes, until the end of the file. */
    method Read(at: nat, limit: nat) returns (r: ReadResult)
      requires at <= |bytes| && limit > 0
      modifies this`failures
      ensures failures == old(failures) + if r.ReadFailed? then 1 else 0
      ensures r.EndOfFile? ==> at == |bytes|
      ensures r.Chunk? ==> 0 < |r.bytes| <= limit && |r.bytes| <= |bytes| - at && r.bytes == bytes[at..at + |r.bytes|]
    {
      var fails: bool := *;
      if fails {
        failures := failures + 1;
        return ReadFailed;
      }
      if at == |bytes| {
        return EndOfFile;
      }
      var n: nat :| 0 < n <= limit && n <= |bytes| - at;
      r := Chunk(bytes[at..at + n]);
    }

    /** truncate. */
    method Truncate(n: nat) returns (ok: bool)
      requires n <= |bytes|
      modifies this
      ensures ok ==> bytes == old(bytes)[..n] && synced == Min(old(synced), n) && failures == old(failures)
      ensures !ok ==> bytes == old(bytes) && synced == old(synced) && failures == old(failures) + 1
    {
      ok := *;
      if ok {
        bytes, synced := bytes[..n], Min(synced, n);
      } else {
        failures := failures + 1;
      }
    }
  }

  /** The wall clock: it may show anything. */
  class Clock {
    ghost var shown: seq<int>

    constructor ()
      ensures shown == []
    {
      shown := [];
    }

    method Now() returns (t: int)
      modifies this
      ensures shown == old(shown) + [t]
    {
      t := *;
      shown := shown + [t];
    }
  }

  function Min(a: nat, b: nat): nat {
    if a < b then a else b
  }
}
