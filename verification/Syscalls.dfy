/** The system calls the agent makes: each may do anything it may do, and what it did is recorded where it is
    done, out of the callers' reach. */
module Syscalls {
  import opened Utf8
  import opened Blocks

  const EAGAIN: int := -11
  const EINTR: int := -4

  /** A descriptor read from. The ghosts are every byte it gave, how many reads there were and what the last
      call returned, how often it was opened, and how often it was polled with what answer. */
  class Source {
    var open: bool
    ghost var got: seq<byte>
    ghost var calls: nat
    ghost var last: int
    ghost var opens: nat
    ghost var ready: bool
    ghost var polled: nat

    constructor ()
      ensures !open && got == []
    {
      open, got, calls, last, opens, ready, polled := false, [], 0, 0, 0, false, 0;
    }

    /** open(2); a failure shows as `last`. */
    method Open() returns (ok: bool)
      modifies this`open, this`opens, this`last
      ensures ok == open && opens == old(opens) + 1 && last == if ok then 1 else -1
    {
      ok := *;
      open, opens, last := ok, opens + 1, if ok then 1 else -1;
    }

    /** The end of a new pipe. */
    method Attach()
      modifies this`open
      ensures open
    {
      open := true;
    }

    /** read(2): the bytes it gave, 0 at the end, or an error. */
    method Read(max: nat) returns (n: int, data: seq<byte>)
      modifies this`got, this`calls, this`last
      ensures n <= max && |data| == (if n > 0 then n else 0)
      ensures got == old(got) + data && calls == old(calls) + 1 && last == n
    {
      n :| n <= max;
      data := Bytes(if n > 0 then n else 0);
      got, calls, last := got + data, calls + 1, n;
    }

    /** poll(2): whether it is readable or hung up. */
    method Poll() returns (r: bool)
      modifies this`ready, this`polled
      ensures r == ready && polled == old(polled) + 1
    {
      r := *;
      ready, polled := r, polled + 1;
    }

    method Close()
      modifies this`open
      ensures !open
    {
      open := false;
    }
  }

  /** A descriptor written to. The ghosts are every byte it took, how many writes there were, how many took nothing
      for now or were interrupted, whether one failed, and whether all is on disk. */
  class Sink {
    ghost var wrote: seq<byte>
    ghost var writes: nat
    ghost var refusals: nat
    ghost var interrupts: nat
    ghost var failed: bool
    ghost var synced: bool

    constructor ()
      ensures wrote == [] && !failed && !synced
    {
      wrote, writes, refusals, interrupts, failed, synced := [], 0, 0, 0, false, false;
    }

    /** open(2) of a file to write, and fchmod(2). */
    method Open() returns (ok: bool)
      modifies this`failed, this`synced
      ensures failed == !ok && !synced
    {
      ok := *;
      failed, synced := !ok, false;
    }

    /** write(2): how many of these bytes it took, from the first on, or an error. */
    method Write(data: seq<byte>) returns (n: int)
      modifies this`wrote, this`writes, this`refusals, this`interrupts, this`failed, this`synced
      ensures n <= |data| && wrote == old(wrote) + (if n > 0 then data[..n] else [])
      ensures writes == old(writes) + 1 && !synced
      ensures refusals == old(refusals) + (if n == 0 || n == EAGAIN then 1 else 0)
      ensures interrupts == old(interrupts) + (if n == EINTR then 1 else 0)
      ensures failed == (old(failed) || n == 0 || (n < 0 && n != EINTR))
    {
      n :| n <= |data|;
      wrote := wrote + if n > 0 then data[..n] else [];
      writes, synced := writes + 1, false;
      refusals := refusals + if n == 0 || n == EAGAIN then 1 else 0;
      interrupts := interrupts + if n == EINTR then 1 else 0;
      failed := failed || n == 0 || (n < 0 && n != EINTR);
    }

    /** fsync(2) */
    method Sync() returns (ok: bool)
      modifies this`failed, this`synced
      ensures synced == ok && failed == (old(failed) || !ok)
    {
      ok := *;
      synced, failed := ok, failed || !ok;
    }
  }

  // ------------------------------------------------------------ the child

  type Code = n: nat | n < 256
  type Signal = s: nat | 1 <= s < 128 witness 1

  /** How a command ended. */
  datatype End = Exited(code: Code) | Killed(signal: Signal, core: bool)

  /** wait(2)'s encoding. */
  function WaitStatus(e: End): nat {
    match e
    case Exited(n) => 256 * n
    case Killed(s, core) => s + if core then 128 else 0
  }

  /** The command. The ghosts are whether it was started, how often it was waited for, and how it ended once that was
      seen. */
  class Child {
    ghost var started: bool
    ghost var running: bool
    ghost var waits: nat
    ghost var end: End

    constructor ()
      ensures !started && !running
    {
      started, running, waits, end := false, false, 0, Exited(0);
    }

    /** The pipes, the fork and the exec; a NUL byte in a string is one way to fail. */
    method Start() returns (ok: bool)
      modifies this`started, this`running
      ensures started == running == ok
    {
      ok := *;
      started, running := ok, ok;
    }

    /** wait4(2) without waiting: the status once it has ended, 0 while it runs, or an error. */
    method Wait() returns (r: int, status: nat)
      modifies this`running, this`waits, this`end
      ensures waits == old(waits) + 1
      ensures r > 0 ==> !running && status == WaitStatus(end)
      ensures r <= 0 ==> running == old(running) && end == old(end)
    {
      r := *;
      status := 0;
      waits := waits + 1;
      if r > 0 {
        var e: End := *;
        status := WaitStatus(e);
        running, end := false, e;
      }
    }
  }
}
