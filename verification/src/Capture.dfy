/** The capture relay: the bounded output buffer, and the pump that forwards typed bytes to
    the capture terminal and turns signal keys into signals.

    What the kernel answers (short counts, would-block, failure, interruption), pauses and
    poll results are chosen arbitrarily at each call; a ghost trace records what happened. */
module Capture {
  import opened Text
  import opened Bytes

  // The output buffer.

  const OUTPUT_LIMIT: nat := 1048576

  function LastBytes(s: Bytes, n: nat): Bytes {
    if |s| <= n then s else s[|s| - n..]
  }

  class OutputBuffer {
    var bytes: Bytes
    var truncated: bool
    /** Everything pushed since the last clear, and whether one chunk filled the buffer. */
    ghost var pushed: Bytes
    ghost var filled: bool

    ghost predicate Valid()
      reads this
    {
      bytes == LastBytes(pushed, OUTPUT_LIMIT) && truncated == (|pushed| > OUTPUT_LIMIT || filled)
      && (filled ==> |pushed| >= OUTPUT_LIMIT)
    }

    constructor ()
      ensures Valid() && pushed == [] && !filled
    {
      bytes, truncated, pushed, filled := [], false, [], false;
    }

    /** Keeps the last bytes of everything pushed. The flag says that bytes were dropped,
        or that one chunk alone reached the limit. */
    method Push(chunk: Bytes)
      requires Valid()
      modifies this
      ensures Valid()
      ensures pushed == old(pushed) + chunk && filled == (old(filled) || |chunk| >= OUTPUT_LIMIT)
    {
      var kept := chunk;
      LastOfMore(pushed, chunk, OUTPUT_LIMIT);
      if |chunk| >= OUTPUT_LIMIT {
        truncated := true;
        kept := chunk[|chunk| - OUTPUT_LIMIT..];
      }
      assert kept == LastBytes(chunk, OUTPUT_LIMIT);
      if |bytes| + |kept| > OUTPUT_LIMIT {
        bytes := bytes[|bytes| + |kept| - OUTPUT_LIMIT..];
        truncated := true;
      }
      bytes := bytes + kept;
      pushed := pushed + chunk;
      filled := filled || |chunk| >= OUTPUT_LIMIT;
    }

    method Clear()
      modifies this
      ensures Valid() && pushed == [] && !filled
    {
      bytes, truncated, pushed, filled := [], false, [], false;
    }

    /** The flag is exact unless one chunk of exactly the limit was all there ever was. */
    lemma FlagIsExact()
      requires Valid()
      ensures (truncated <==> bytes != pushed) <==> !(filled && |pushed| == OUTPUT_LIMIT)
    {
    }
  }

  /** Keeping the end of a concatenation by keeping the ends of its parts. */
  lemma {:induction false} LastOfMore(s: Bytes, chunk: Bytes, n: nat)
    ensures var kept := LastBytes(chunk, n);
            var have := LastBytes(s, n);
            LastBytes(s + chunk, n)
            == (if |have| + |kept| > n then have[|have| + |kept| - n..] else have) + kept
  {
    var all := s + chunk;
    if |chunk| >= n {
      assert LastBytes(all, n) == LastBytes(chunk, n);
    } else if |all| > n {
      assert all[|all| - n..] == s[|all| - n..] + chunk;
    }
  }

  // Signal keys.

  datatype Signal = Stop | Int | Quit

  /** The line discipline's keys as the relay reads them before a chunk. */
  datatype Keys = Keys(suspend: Option<Byte>, interrupt: Option<(Byte, Byte)>)

  const NO_KEY: Byte := 0xff

  /** What one byte means: the suspend key first, then interrupt, then quit. */
  function Classify(keys: Keys, b: Byte): Option<Signal> {
    if keys.suspend == Some(b) then Some(Stop)
    else if keys.interrupt.Some? && keys.interrupt.value.0 == b && b != NO_KEY then Some(Int)
    else if keys.interrupt.Some? && keys.interrupt.value.1 == b && b != NO_KEY then Some(Quit)
    else None
  }

  predicate AllPlain(s: Bytes, keys: Keys) {
    forall i :: 0 <= i < |s| ==> Classify(keys, s[i]).None?
  }

  /** `earliest_signal` searches for each key; it finds the first byte that is any of them. */
  function EarliestSignal(rest: Bytes, keys: Keys): (r: Option<(nat, Signal)>)
    ensures r.None? ==> AllPlain(rest, keys)
    ensures r.Some? ==>
              var (at, signal) := r.value;
              at < |rest| && AllPlain(rest[..at], keys) && Classify(keys, rest[at]) == Some(signal)
  {
    var best := Consider(None, rest, keys.suspend, Stop);
    match keys.interrupt
    case None => best
    case Some((intr, quit)) =>
      var best := if intr == NO_KEY then best else Consider(best, rest, Some(intr), Int);
      if quit == NO_KEY then best else Consider(best, rest, Some(quit), Quit)
  }

  /** A key's first position replaces the best one only when strictly earlier. */
  function Consider(best: Option<(nat, Signal)>, rest: Bytes, key: Option<Byte>, signal: Signal): Option<(nat, Signal)> {
    match key
    case None => best
    case Some(k) =>
      var at := Find(rest, k);
      if at < |rest| && (best.None? || at < best.value.0) then Some((at, signal)) else best
  }

  // The trace and the ideal pump.

  datatype Event =
    | Read(bytes: Bytes)
    | Accepted(byte: Byte, keys: Keys)
    | Fired(byte: Byte, signal: Signal, keys: Keys)
    | SawPause
    | WouldBlock
    | Failed
    | HungUp

  /** One event of an ideal pump that holds `held`: it reads only with nothing held and only
      while the terminal is there, and disposes of bytes one at a time from the front, each as
      its class says. */
  function Ideal(held: Bytes, gone: bool, e: Event): Option<Bytes> {
    match e
    case Read(bytes) => if held == [] && !gone then Some(bytes) else None
    case Accepted(b, keys) => if held != [] && held[0] == b && Classify(keys, b).None? then Some(held[1..]) else None
    case Fired(b, signal, keys) =>
      if held != [] && held[0] == b && Classify(keys, b) == Some(signal) then Some(held[1..]) else None
    case _ => Some(held)
  }

  /** What the ideal pump holds after the trace; none when it could not have happened. */
  function Held(trace: seq<Event>): Option<Bytes> {
    if trace == [] then Some([])
    else
      var front := trace[..|trace| - 1];
      match Held(front)
      case None => None
      case Some(held) => Ideal(held, HungUp in front, trace[|trace| - 1])
  }

  function Accepts(bytes: Bytes, keys: Keys): seq<Event> {
    seq(|bytes|, i requires 0 <= i < |bytes| => Accepted(bytes[i], keys))
  }

  lemma {:induction false} HeldStep(trace: seq<Event>, e: Event)
    requires Held(trace).Some?
    ensures Held(trace + [e]) == Ideal(Held(trace).value, HungUp in trace, e)
  {
    assert (trace + [e])[..|trace|] == trace;
  }

  /** Only reads, accepted bytes and signals change what is held. */
  lemma {:induction false} HeldThroughNote(trace: seq<Event>, e: Event)
    requires Held(trace).Some? && !e.Read? && !e.Accepted? && !e.Fired?
    ensures Held(trace + [e]) == Held(trace)
  {
    HeldStep(trace, e);
  }

  lemma {:induction false} HeldAccepts(trace: seq<Event>, held: Bytes, n: nat, keys: Keys)
    requires Held(trace) == Some(held) && n <= |held| && AllPlain(held[..n], keys)
    ensures Held(trace + Accepts(held[..n], keys)) == Some(held[n..])
  {
    if n == 0 {
      assert trace + Accepts(held[..0], keys) == trace;
    } else {
      var m := n - 1;
      assert held[..n][m] == held[m] && forall i :: 0 <= i < m ==> held[..m][i] == held[..n][i];
      HeldAccepts(trace, held, m, keys);
      var t := trace + Accepts(held[..m], keys);
      HeldStep(t, Accepted(held[m], keys));
      assert t + [Accepted(held[m], keys)] == trace + Accepts(held[..n], keys);
      assert held[m..][1..] == held[n..];
    }
  }

  // Conservation over a trace.

  function ReadBytes(trace: seq<Event>): Bytes {
    if trace == [] then []
    else
      var e := trace[|trace| - 1];
      ReadBytes(trace[..|trace| - 1]) + if e.Read? then e.bytes else []
  }

  /** Bytes accepted by the master and signal keys consumed, in the order they went. */
  function Consumed(trace: seq<Event>): Bytes {
    if trace == [] then []
    else
      var e := trace[|trace| - 1];
      Consumed(trace[..|trace| - 1]) + if e.Accepted? || e.Fired? then [e.byte] else []
  }

  /** The bytes read are, in order and once each, those consumed and then those held. */
  lemma {:induction false} NoByteIsLost(trace: seq<Event>)
    requires Held(trace).Some?
    ensures ReadBytes(trace) == Consumed(trace) + Held(trace).value
  {
    if trace != [] {
      var front, e := trace[..|trace| - 1], trace[|trace| - 1];
      NoByteIsLost(front);
      var held := Held(front).value;
      if e.Accepted? || e.Fired? {
        assert held == [e.byte] + held[1..];
      }
    }
  }

  lemma {:induction false} HeldPrefix(trace: seq<Event>, n: nat)
    requires Held(trace).Some? && n <= |trace|
    ensures Held(trace[..n]).Some?
    decreases |trace|
  {
    if n == |trace| {
      assert trace[..n] == trace;
    } else {
      HeldPrefix(trace[..|trace| - 1], n);
      assert trace[..|trace| - 1][..n] == trace[..n];
    }
  }

  /** The byte is an enabled interrupt or quit key; `0xff` disables a key. */
  predicate IsInterrupt(keys: Keys, b: Byte) {
    b != 0xff && keys.interrupt.Some? && keys.interrupt.value.0 == b
  }

  predicate IsQuit(keys: Keys, b: Byte) {
    b != 0xff && keys.interrupt.Some? && keys.interrupt.value.1 == b
  }

  /** A signal fires only when everything typed before its key was disposed of: the key is
      the next byte of the input. It is the suspend key's byte that stops, the interrupt key's
      that interrupts and the quit key's that quits, in that order where keys share a byte;
      a byte that is none of them goes to the master. A read happens only when everything read
      is disposed of, and never after the terminal hung up. */
  lemma {:induction false} SignalsKeepTheirPlace(trace: seq<Event>, i: nat)
    requires Held(trace).Some? && i < |trace|
    ensures var before, e := trace[..i], trace[i];
            && (e.Fired? || e.Accepted? ==> Consumed(before) + [e.byte] <= ReadBytes(before))
            && (e.Fired? ==>
                  && (e.signal.Stop? <==> e.keys.suspend == Some(e.byte))
                  && (e.signal.Int? <==> e.keys.suspend != Some(e.byte) && IsInterrupt(e.keys, e.byte))
                  && (e.signal.Quit? ==> IsQuit(e.keys, e.byte)))
            && (e.Accepted? ==> e.keys.suspend != Some(e.byte) && !IsInterrupt(e.keys, e.byte) && !IsQuit(e.keys, e.byte))
            && (e.Read? ==> Consumed(before) == ReadBytes(before) && HungUp !in before)
  {
    var before := trace[..i];
    HeldPrefix(trace, i);
    HeldPrefix(trace, i + 1);
    assert trace[..i + 1] == before + [trace[i]];
    HeldStep(before, trace[i]);
    NoByteIsLost(before);
  }

  predicate Holdup(e: Event) {
    e.SawPause? || e.WouldBlock? || e.Failed?
  }

  // The pump.

  datatype ReadResult = Data | Hangup | NothingYet | Retry

  datatype WriteResult = Wrote(count: nat) | Interrupted | Again | Error

  /** What one poll of the relay reports. */
  datatype Polled = Polled(interrupted: bool, failed: bool, stopping: bool, writable: bool, stillOpen: bool,
                           terminalEvent: bool, terminalReadable: bool)

  class Pump {
    var open: bool
    var inputTail: Bytes
    var inputBlocked: bool
    ghost var trace: seq<Event>

    /** The trace is a run of the ideal pump, which holds exactly the tail; input is blocked
        exactly when a write failed, and then bytes are held. */
    ghost predicate Valid()
      reads this
    {
      Held(trace) == Some(inputTail) && (inputBlocked <==> Failed in trace) && (inputBlocked ==> inputTail != [])
    }

    /** The same while `rest` is in the hands of a method. */
    ghost predicate Carrying(rest: Bytes)
      reads this`trace, this`inputTail, this`inputBlocked
    {
      Held(trace) == Some(rest) && inputTail == [] && !inputBlocked && Failed !in trace
    }

    constructor ()
      ensures Valid() && open && trace == []
    {
      open, inputTail, inputBlocked, trace := true, [], false, [];
    }

    // The pump's contact with the world; each appends to the trace what happened.

    /** The shared pause flag, which another thread may flip at any time. */
    method Paused() returns (paused: bool)
      requires Held(trace).Some?
      modifies this`trace
      ensures trace == if paused then old(trace) + [SawPause] else old(trace)
      ensures Held(trace) == Held(old(trace))
    {
      paused := *;
      if paused {
        HeldThroughNote(trace, SawPause);
        trace := trace + [SawPause];
      }
    }

    /** One `write` to the master: any positive count, or a refusal; a count of zero is
        treated as an error. Interruptions end when `patience` does. */
    method WriteOnce(bytes: Bytes, keys: Keys, patience: nat, ghost rest: Bytes) returns (r: WriteResult)
      requires bytes != [] && bytes <= rest && AllPlain(bytes, keys) && Held(trace) == Some(rest)
      modifies this`trace
      ensures r.Interrupted? ==> patience > 0 && trace == old(trace)
      ensures Extends(old(trace), trace, !r.Interrupted?)
      ensures r.Wrote? ==> 0 < r.count <= |bytes| && Held(trace) == Some(rest[r.count..])
      ensures !r.Wrote? ==> Held(trace) == Some(rest)
      ensures r.Again? || r.Error? ==> EndsInHoldup(trace)
      ensures Failed in trace <==> Failed in old(trace) || r.Error?
    {
      r := *;
      if r.Interrupted? && patience == 0 {
        r := Again;
      }
      match r {
        case Wrote(n) =>
          var count := if 0 < n <= |bytes| then n else |bytes|;
          assert rest[..count] == bytes[..count];
          HeldAccepts(trace, rest, count, keys);
          trace := trace + Accepts(bytes[..count], keys);
          r := Wrote(count);
        case Interrupted =>
        case Again =>
          HeldThroughNote(trace, WouldBlock);
          trace := trace + [WouldBlock];
        case Error =>
          HeldThroughNote(trace, Failed);
          trace := trace + [Failed];
      }
    }

    /** A signal to a process group; its own failure is ignored. */
    method Fire(signal: Signal, keys: Keys, ghost rest: Bytes)
      requires rest != [] && Held(trace) == Some(rest) && Classify(keys, rest[0]) == Some(signal)
      modifies this`trace
      ensures trace == old(trace) + [Fired(rest[0], signal, keys)]
      ensures Held(trace) == Some(rest[1..])
    {
      HeldStep(trace, Fired(rest[0], signal, keys));
      trace := trace + [Fired(rest[0], signal, keys)];
    }

    /** One read of the terminal that returned bytes. */
    method ReadTerminal() returns (chunk: Bytes)
      requires Held(trace) == Some([]) && HungUp !in trace
      modifies this`trace
      ensures trace == old(trace) + [Read(chunk)]
      ensures Held(trace) == Some(chunk)
    {
      chunk := *;
      HeldStep(trace, Read(chunk));
      trace := trace + [Read(chunk)];
    }

    /** The terminal reported a hangup, an end of input or an error. */
    method HangUp()
      requires Held(trace).Some?
      modifies this`trace
      ensures trace == old(trace) + [HungUp] && Held(trace) == Held(old(trace))
    {
      HeldThroughNote(trace, HungUp);
      trace := trace + [HungUp];
    }

    // Forwarding.

    /** `write_master`. `rest` is everything still to be disposed of; bytes are left over
        only after a refusal, and blocked exactly when it was a failure. */
    method WriteMaster(bytes: Bytes, keys: Keys, ghost rest: Bytes) returns (accepted: nat, blocked: bool)
      requires bytes <= rest && AllPlain(bytes, keys) && Held(trace) == Some(rest) && Failed !in trace
      modifies this`trace
      ensures accepted <= |bytes| && Held(trace) == Some(rest[accepted..])
      ensures blocked <==> Failed in trace
      ensures blocked ==> accepted < |bytes|
      ensures accepted < |bytes| ==> EndsInHoldup(trace)
      ensures Extends(old(trace), trace, bytes != [])
    {
      accepted := 0;
      // Any finite number of interruptions.
      var patience: nat := *;
      while accepted < |bytes|
        invariant accepted <= |bytes| && Held(trace) == Some(rest[accepted..]) && Failed !in trace
        invariant Extends(old(trace), trace, accepted > 0)
        decreases |bytes| - accepted, patience
      {
        var paused := Paused();
        if paused {
          return accepted, false;
        }
        assert bytes[accepted..] <= rest[accepted..];
        var r := WriteOnce(bytes[accepted..], keys, patience, rest[accepted..]);
        match r {
          case Wrote(count) =>
            assert rest[accepted..][count..] == rest[accepted + count..];
            accepted := accepted + count;
          case Interrupted =>
            patience := patience - 1;
          case Again =>
            return accepted, false;
          case Error =>
            return accepted, true;
        }
      }
      return accepted, false;
    }

    /** `keep_unwritten`. */
    method KeepUnwritten(bytes: Bytes, keys: Keys)
      requires Carrying(bytes) && AllPlain(bytes, keys)
      modifies this`trace, this`inputTail, this`inputBlocked
      ensures Valid() && (inputTail != [] ==> EndsInHoldup(trace))
      ensures Extends(old(trace), trace, bytes != [])
    {
      if bytes == [] {
        return;
      }
      var accepted, blocked := WriteMaster(bytes, keys, bytes);
      if blocked {
        inputBlocked := true;
      }
      assert [] + bytes[accepted..] == bytes[accepted..];
      if accepted < |bytes| {
        inputTail := inputTail + bytes[accepted..];
      }
    }

    /** The bytes ahead of a signal key: unless all are accepted, they and the key are kept. */
    method WriteBefore(rest: Bytes, found: nat, keys: Keys) returns (done: bool)
      requires found <= |rest| && Carrying(rest) && AllPlain(rest[..found], keys)
      modifies this`trace, this`inputTail, this`inputBlocked
      ensures done ==> Carrying(rest[found..])
      ensures !done ==> Valid() && EndsInHoldup(trace)
      ensures Extends(old(trace), trace, found > 0)
    {
      var accepted, blocked := WriteMaster(rest[..found], keys, rest);
      if blocked {
        inputBlocked := true;
      }
      if accepted < found || blocked {
        inputTail := inputTail + rest[accepted..];
        assert inputTail == rest[accepted..];
        return false;
      }
      return true;
    }

    /** One turn of `forward_chunk`: the bytes up to the next signal key and the key itself, or
        all of them when there is no key. What is left to do is returned, or none when bytes
        had to be kept or nothing is left. */
    method ForwardStep(rest: Bytes, keys: Keys) returns (next: Option<Bytes>)
      requires rest != [] && Carrying(rest)
      modifies this`trace, this`inputTail, this`inputBlocked
      ensures next.Some? ==> Carrying(next.value) && |next.value| < |rest|
      ensures next.None? ==> Valid() && (inputTail != [] ==> EndsInHoldup(trace))
      ensures Extends(old(trace), trace, true)
    {
      var paused := Paused();
      if paused {
        inputTail := inputTail + rest;
        assert inputTail == rest;
        return None;
      }
      var signal := EarliestSignal(rest, keys);
      if signal.None? {
        KeepUnwritten(rest, keys);
        return None;
      }
      var found := signal.value.0;
      if found > 0 {
        var done := WriteBefore(rest, found, keys);
        if !done {
          return None;
        }
      }
      Fire(signal.value.1, keys, rest[found..]);
      return Some(rest[found + 1..]);
    }

    /** `forward_chunk`: afterwards every byte of the chunk was disposed of or is in the
        tail, and bytes stay behind only because the last thing seen was a pause, a
        would-block or a failure. */
    method ForwardChunk(chunk: Bytes)
      requires Carrying(chunk)
      modifies this`trace, this`inputTail, this`inputBlocked
      ensures Valid() && (inputTail != [] ==> EndsInHoldup(trace))
      ensures Extends(old(trace), trace, chunk != [])
    {
      // The keys and the foreground group, as the terminal has them now.
      var keys: Keys := *;
      var rest := chunk;
      while rest != []
        invariant Carrying(rest) && Extends(old(trace), trace, rest != chunk)
        decreases |rest|
      {
        var next := ForwardStep(rest, keys);
        if next.None? {
          return;
        }
        rest := next.value;
      }
    }

    /** `drain_tail`: the tail is taken and tried again, and what the master still refuses is
        put back. */
    method DrainTail()
      requires Valid()
      modifies this`trace, this`inputTail, this`inputBlocked
      ensures Valid() && (inputTail != [] ==> inputBlocked || EndsInHoldup(trace))
      ensures Extends(old(trace), trace, old(inputTail) != [] && !old(inputBlocked))
    {
      if inputTail == [] || inputBlocked {
        return;
      }
      var pending := inputTail;
      inputTail := [];
      ForwardChunk(pending);
    }

    /** `forward`: reads and forwards while both sides are ready; the terminal stops being
        usable exactly when it hung up. */
    method Forward() returns (usable: bool)
      requires Valid() && inputTail == [] && HungUp !in trace
      modifies this`trace, this`inputTail, this`inputBlocked
      ensures Valid() && (usable <==> HungUp !in trace)
    {
      // Any finite number of turns.
      var turns: nat := *;
      while turns > 0
        invariant Valid() && inputTail == [] && HungUp !in trace
      {
        turns := turns - 1;
        var paused := Paused();
        if paused || inputBlocked {
          return true;
        }
        var pollFailed: bool, stopping: bool, masterReady: bool, terminalReady: bool, readable: bool := *, *, *, *, *;
        if pollFailed || stopping {
          return true;
        }
        paused := Paused();
        if paused || !masterReady || !terminalReady {
          return true;
        }
        if !readable {
          HangUp();
          return false;
        }
        var outcome: ReadResult := *;
        match outcome {
          case Data =>
            var chunk := ReadTerminal();
            ForwardChunk(chunk);
            if inputTail != [] || inputBlocked {
              return true;
            }
          case Hangup =>
            HangUp();
            return false;
          case NothingYet => return true;
          case Retry =>
        }
        if !open {
          return true;
        }
      }
      return true;
    }

    /** One turn of `relay`, as far as input goes: the conditions under which it flushes the
        tail or reads the terminal. A held tail that can be retried is retried as soon as the
        master is writable, unless a pause is seen, and nothing moves when input is not
        forwarded. */
    method Turn(forwardInput: bool, alive: bool, polled: Polled) returns (stillAlive: bool)
      requires Valid() && (alive <==> HungUp !in trace)
      modifies this
      ensures Valid() && (stillAlive <==> HungUp !in trace)
      ensures forwardInput && old(open) && old(inputTail) != [] && !old(inputBlocked) && polled.stillOpen && polled.writable
              ==> |trace| > |old(trace)|
      ensures !forwardInput ==> OnlyPauses(old(trace), trace) && inputTail == old(inputTail)
    {
      stillAlive := alive;
      var paused := Paused();
      var forwarding := forwardInput && open && !paused;
      var flushTail := forwarding && inputTail != [] && !inputBlocked;
      var watchTerminal := forwarding && inputTail == [] && alive;
      var terminalEvent := polled.terminalEvent && watchTerminal && open;
      // Draining the master's output may find it closed.
      open := open && polled.stillOpen;
      if open && flushTail && polled.writable {
        paused := Paused();
        if !paused {
          DrainTail();
        }
      }
      if terminalEvent {
        if polled.terminalReadable {
          stillAlive := Forward();
        } else {
          HangUp();
          stillAlive := false;
        }
      }
    }

    /** `relay`: whatever the polls, pauses and the stop pipe do, the trace stays a run of the
        ideal pump, and the tail handed back is all it holds. */
    method Relay(forwardInput: bool) returns (tail: Bytes)
      requires Valid() && HungUp !in trace
      modifies this
      ensures Valid() && tail == inputTail
      ensures ReadBytes(trace) == Consumed(trace) + tail
    {
      var terminalAlive := true;
      var turns: nat := *;
      while turns > 0
        invariant Valid() && (terminalAlive <==> HungUp !in trace)
      {
        turns := turns - 1;
        var polled: Polled := *;
        if polled.interrupted {
          continue;
        }
        if polled.failed || polled.stopping {
          break;
        }
        terminalAlive := Turn(forwardInput, terminalAlive, polled);
      }
      NoByteIsLost(trace);
      return inputTail;
    }
  }

  predicate EndsInHoldup(trace: seq<Event>) {
    trace != [] && Holdup(trace[|trace| - 1])
  }

  /** More happened, at least one thing if `some`, and no hangup among it. */
  predicate Extends(before: seq<Event>, after: seq<Event>, some: bool) {
    |before| <= |after| && (some ==> |before| < |after|) && (HungUp in after <==> HungUp in before)
  }

  predicate OnlyPauses(before: seq<Event>, after: seq<Event>) {
    after == before || after == before + [SawPause]
  }
}
