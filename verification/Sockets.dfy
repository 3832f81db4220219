/**
 The environment of a reactor: sockets, the command handler as a connection uses it, the
 readiness set of the kernel and the listening socket. What happens there is recorded by the
 environment itself, and nothing but its own methods can change the record.
 */
module Sockets {
  import opened Base
  import opened Stream

  datatype ReadResult = Data(bytes: Bytes) | Eof | ReadInterrupted | ReadBlocks | ReadFails

  datatype WriteResult = Took(n: nat) | WriteInterrupted | WriteBlocks | WriteFails

  class Socket {
    // The chunks handed over so far, the bytes taken so far, and how every call went.
    ghost var given: seq<Bytes>
    ghost var taken: Bytes
    ghost var recvs: seq<ReadResult>
    ghost var sends: seq<WriteResult>
    // How many more calls a signal will interrupt: any number, but not forever.
    var interrupts: nat

    constructor ()
      ensures given == [] && taken == [] && recvs == [] && sends == []
    {
      given, taken, recvs, sends := [], [], [], [];
      interrupts := *;
    }

    /** recv: any bytes up to the limit, the end of the stream, or an error. */
    method Recv(limit: nat) returns (r: ReadResult)
      modifies this
      ensures recvs == old(recvs) + [r] && sends == old(sends) && taken == old(taken)
      ensures r.Data? ==> 0 < |r.bytes| <= limit && given == old(given) + [r.bytes]
      ensures !r.Data? ==> given == old(given)
      ensures r.ReadInterrupted? ==> interrupts < old(interrupts)
      ensures !r.ReadInterrupted? ==> interrupts == old(interrupts)
    {
      r := *;
      if (r.Data? && !(0 < |r.bytes| <= limit)) || (r.ReadInterrupted? && interrupts == 0) {
        r := ReadFails;
      }
      if r.Data? {
        given := given + [r.bytes];
      }
      if r.ReadInterrupted? {
        interrupts := interrupts - 1;
      }
      recvs := recvs + [r];
    }

    /** send: takes some of the bytes from the front, or fails. */
    method Send(data: Bytes) returns (r: WriteResult)
      modifies this
      ensures sends == old(sends) + [r] && recvs == old(recvs) && given == old(given)
      ensures r.Took? ==> r.n <= |data| && taken == old(taken) + data[..r.n]
      ensures !r.Took? ==> taken == old(taken)
      ensures r.WriteInterrupted? ==> interrupts < old(interrupts)
      ensures !r.WriteInterrupted? ==> interrupts == old(interrupts)
    {
      r := *;
      if r.Took? {
        var n: nat :| n <= |data|;
        taken := taken + data[..n];
        r := Took(n);
      } else if r.WriteInterrupted? && interrupts == 0 {
        r := WriteFails;
      } else if r.WriteInterrupted? {
        interrupts := interrupts - 1;
      }
      sends := sends + [r];
    }
  }

  /** Whether the server has been asked to stop. */
  class Control {
    var stopRequested: bool

    constructor ()
      ensures !stopRequested
    {
      stopRequested := false;
    }
  }

  class Handler {
    ghost var log: seq<Exchange>
    const control: Control

    constructor (control: Control)
      ensures log == [] && this.control == control
    {
      log, this.control := [], control;
    }

    /** Runs a command: any answer, and it may ask the server to stop. */
    method Call(cmd: Command) returns (reply: Bytes)
      modifies this, control
      ensures log == old(log) + [Exchange(cmd, reply)]
      ensures old(control.stopRequested) ==> control.stopRequested
    {
      reply := *;
      var stop: bool := *;
      control.stopRequested := control.stopRequested || stop;
      log := log + [Exchange(cmd, reply)];
    }
  }

  /** The descriptors the kernel watches, each for reading and, if true, for writing; any call may be refused. */
  class Epoll {
    ghost var watched: map<int, bool>
    ghost var refusals: nat

    constructor ()
      ensures watched == map[] && refusals == 0
    {
      watched, refusals := map[], 0;
    }

    method Add(fd: int, writing: bool) returns (ok: bool)
      modifies this
      ensures ok ==> watched == old(watched)[fd := writing] && refusals == old(refusals)
      ensures !ok ==> watched == old(watched) && refusals == old(refusals) + 1
    {
      ok := *;
      if ok {
        watched := watched[fd := writing];
      } else {
        refusals := refusals + 1;
      }
    }

    method Modify(fd: int, writing: bool) returns (ok: bool)
      requires fd in watched
      modifies this
      ensures ok ==> watched == old(watched)[fd := writing] && refusals == old(refusals)
      ensures !ok ==> watched == old(watched) && refusals == old(refusals) + 1
    {
      ok := Add(fd, writing);
    }

    /** Deleting cannot be refused in effect: the descriptor is closed right after. */
    method Remove(fd: int)
      modifies this
      ensures watched == old(watched) - {fd} && refusals == old(refusals)
    {
      watched := watched - {fd};
    }
  }

  /** The accept queue: clients on descriptors that are not in use, until there are no more or accept fails. */
  class Listener {
    ghost var accepts: seq<Option<int>>
    // How many more clients are waiting at most.
    var waiting: nat

    constructor ()
      ensures accepts == []
    {
      accepts, waiting := [], *;
    }

    method Accept(inUse: set<int>) returns (fd: Option<int>)
      modifies this
      ensures accepts == old(accepts) + [fd]
      ensures fd.Some? ==> fd.value !in inUse && waiting < old(waiting)
    {
      fd := *;
      if fd.Some? && (fd.value in inUse || waiting == 0) {
        fd := None;
      }
      if fd.Some? {
        waiting := waiting - 1;
      }
      accepts := accepts + [fd];
    }
  }
}
