/** The polled UART: FIFOs drained and filled by hardware, and the bounded blocking write. */
module Uart {
  import opened Word32

  const MAX_TIMEOUT: int := 0x7fff_ffff // i32::MAX

  /** True time and the 32-bit reading of it that the program sees. */
  class Counter {
    var ticks: nat

    constructor (ticks: nat)
      ensures this.ticks == ticks
    {
      this.ticks := ticks;
    }

    method Advance(gap: nat)
      modifies this
      ensures ticks == old(ticks) + gap
    {
      ticks := ticks + gap;
    }

    method Now() returns (now: u32)
      ensures now == Wrap(ticks)
    {
      now := ticks % MODULUS;
    }

    /** True elapsed time, as long as less than one wrap has passed. */
    method ElapsedSince(start: u32, ghost startTicks: nat) returns (elapsed: u32)
      requires start == Wrap(startTicks) && startTicks <= ticks
      ensures elapsed == Wrap(ticks - startTicks)
      ensures ticks - startTicks < MODULUS ==> elapsed == ticks - startTicks
    {
      var now := Now();
      WrappingSubOfReadings(ticks, startTicks);
      elapsed := (now - start) % MODULUS;
    }
  }

  datatype Flags = Flags(framing: bool, parity: bool, breakDetected: bool, overrun: bool)

  const CLEAR_FLAGS := Flags(false, false, false, false)

  datatype RxEntry = RxEntry(data: u8, flags: Flags)

  datatype Received = Empty | Good(data: u8) | Bad(flags: Flags)

  /** How a write stands: finished, given up, or still polling when we stop watching. */
  datatype Outcome = Accepted | TimedOut | Polling

  /** What the clock and the hardware do around one poll: ticks that pass before its elapsed-time check,
      and bytes shifted out before the FIFO-full check and before the data write. */
  datatype Poll = Poll(gap: nat, drain: nat, lateDrain: nat)

  /** True ticks from the start of a write through its first `n` checks. */
  function Sum(polls: seq<Poll>, n: nat): nat
    requires n <= |polls|
  {
    if n == 0 then 0 else Sum(polls, n - 1) + polls[n - 1].gap
  }

  /** True elapsed time at the k-th check. */
  function Elapsed(polls: seq<Poll>, k: nat): nat
    requires k < |polls|
  {
    Sum(polls, k + 1)
  }

  /** The k-th check, as the 32-bit counter shows it. */
  predicate Expires(polls: seq<Poll>, timeout: u32, k: nat)
    requires k < |polls|
  {
    Wrap(Elapsed(polls, k)) >= timeout
  }

  /** None of the first `n` checks expires. */
  ghost predicate Unexpired(polls: seq<Poll>, timeout: u32, n: nat)
    requires n <= |polls|
  {
    forall k: nat :: k < n ==> !Expires(polls, timeout, k)
  }

  function Less(n: nat, k: nat): nat {
    if k <= n then n - k else 0
  }

  /** FIFO occupancy after `n` polls of a write that still has bytes to send. */
  function Level(polls: seq<Poll>, depth: nat, level: nat, n: nat): nat
    requires n <= |polls|
  {
    if n == 0 then level
    else
      var before := Less(Level(polls, depth, level, n - 1), polls[n - 1].drain);
      Less(before, polls[n - 1].lateDrain) + if before < depth then 1 else 0
  }

  /** The k-th poll finds room. */
  predicate Room(polls: seq<Poll>, depth: nat, level: nat, k: nat)
    requires k < |polls|
  {
    Less(Level(polls, depth, level, k), polls[k].drain) < depth
  }

  /** The polls among the first `n` that find room, in order. */
  function Rooms(polls: seq<Poll>, depth: nat, level: nat, n: nat): seq<nat>
    requires n <= |polls|
  {
    if n == 0 then []
    else Rooms(polls, depth, level, n - 1) + if Room(polls, depth, level, n - 1) then [n - 1] else []
  }

  lemma {:induction false} RoomsInOrder(polls: seq<Poll>, depth: nat, level: nat, n: nat)
    requires n <= |polls|
    ensures forall k: nat :: k in Rooms(polls, depth, level, n) <==> k < n && Room(polls, depth, level, k)
    ensures forall i, j :: 0 <= i < j < |Rooms(polls, depth, level, n)| ==>
              Rooms(polls, depth, level, n)[i] < Rooms(polls, depth, level, n)[j]
  {
    if n > 0 {
      RoomsInOrder(polls, depth, level, n - 1);
      var before, all := Rooms(polls, depth, level, n - 1), Rooms(polls, depth, level, n);
      forall i | 0 <= i < |before| ensures before[i] < n - 1 {
        assert before[i] in before;
      }
      assert forall i, j :: 0 <= i < j < |all| ==> all[i] < all[j];
    }
  }

  lemma {:induction false} RoomsGrow(polls: seq<Poll>, depth: nat, level: nat, m: nat, n: nat)
    requires m <= n <= |polls|
    ensures |Rooms(polls, depth, level, m)| <= |Rooms(polls, depth, level, n)|
  {
    if m < n {
      RoomsGrow(polls, depth, level, m, n - 1);
    }
  }

  /** The polls made before a check expires, out of the first `n`. */
  function Live(polls: seq<Poll>, timeout: u32, n: nat): (c: nat)
    requires n <= |polls|
    ensures c <= n && Unexpired(polls, timeout, c)
    ensures c < n ==> Expires(polls, timeout, c)
  {
    if n == 0 then 0
    else
      var c := Live(polls, timeout, n - 1);
      if c == n - 1 && !Expires(polls, timeout, n - 1) then n else c
  }

  /** How many bytes a write finds room for before a check expires: one at each unexpired poll with room. */
  function Capacity(polls: seq<Poll>, timeout: u32, depth: nat, level: nat): nat {
    |Rooms(polls, depth, level, Live(polls, timeout, |polls|))|
  }

  /** Room for `n` bytes before a check expires, however full the FIFO is at first. */
  ghost predicate Ample(polls: seq<Poll>, timeout: u32, depth: nat, n: nat) {
    forall level: nat :: level <= depth ==> Capacity(polls, timeout, depth, level) >= n
  }

  lemma {:induction false} DrainedLevel(polls: seq<Poll>, depth: nat, level: nat, n: nat)
    requires n <= |polls| && level <= depth
    requires forall k: nat :: k < n ==> polls[k].drain >= 1
    ensures Level(polls, depth, level, n) <= depth && (depth > 0 ==> |Rooms(polls, depth, level, n)| == n)
  {
    if n > 0 {
      DrainedLevel(polls, depth, level, n - 1);
    }
  }

  /** So a byte shifted out before each of `n` unexpired checks is enough. */
  lemma DrainingIsAmple(polls: seq<Poll>, timeout: u32, depth: nat, n: nat)
    requires depth > 0 && n <= |polls| && Unexpired(polls, timeout, n)
    requires forall k: nat :: k < n ==> polls[k].drain >= 1
    ensures Ample(polls, timeout, depth, n)
  {
    var c := Live(polls, timeout, |polls|);
    assert n <= c;
    forall level: nat | level <= depth ensures Capacity(polls, timeout, depth, level) >= n {
      DrainedLevel(polls, depth, level, n);
      RoomsGrow(polls, depth, level, n, c);
    }
  }

  /** The first `n` checks are never so far apart that a wrap hides the expiry. */
  ghost predicate Paced(polls: seq<Poll>, timeout: u32, n: nat)
    requires n <= |polls|
  {
    forall k: nat :: k < n ==> polls[k].gap <= MODULUS - timeout
  }

  /** At least one tick passes between any two of the first `n` checks. */
  ghost predicate Ticking(polls: seq<Poll>, n: nat)
    requires n <= |polls|
  {
    forall k: nat :: 0 < k < n ==> polls[k].gap >= 1
  }

  /** Paced checks up to and including the first that expires all read true elapsed time. */
  lemma {:induction false} PacedChecksAreTrue(polls: seq<Poll>, timeout: u32, n: nat)
    requires n <= |polls| && timeout <= MAX_TIMEOUT && Paced(polls, timeout, n)
    requires n > 0 ==> Unexpired(polls, timeout, n - 1)
    ensures forall k: nat :: k < n ==> (Expires(polls, timeout, k) <==> Elapsed(polls, k) >= timeout)
  {
    if n > 0 {
      PacedChecksAreTrue(polls, timeout, n - 1);
      assert n > 1 ==> !Expires(polls, timeout, n - 2) && Sum(polls, n - 1) == Elapsed(polls, n - 2);
      assert Elapsed(polls, n - 1) == Sum(polls, n - 1) + polls[n - 1].gap;
    }
  }

  lemma {:induction false} TicksAddUp(polls: seq<Poll>, n: nat)
    requires n < |polls| && Ticking(polls, n + 1)
    ensures Elapsed(polls, n) >= n
  {
    if n > 0 {
      TicksAddUp(polls, n - 1);
    }
  }

  /** With a running counter, paced polling lasts at most `timeout` checks before one expires. */
  lemma BoundedPolls(polls: seq<Poll>, timeout: u32, n: nat)
    requires n <= |polls| && timeout <= MAX_TIMEOUT && Paced(polls, timeout, n) && Ticking(polls, n)
    requires Unexpired(polls, timeout, n)
    ensures n <= timeout
  {
    if n > 0 {
      PacedChecksAreTrue(polls, timeout, n);
      TicksAddUp(polls, n - 1);
    }
  }

  /** What the checks made so far say about true time. */
  lemma WriteStands(polls: seq<Poll>, timeout: u32, checks: nat, timedOut: bool)
    requires checks <= |polls| && timeout <= MAX_TIMEOUT && Paced(polls, timeout, checks)
    requires if timedOut then checks > 0 && Unexpired(polls, timeout, checks - 1) && Expires(polls, timeout, checks - 1)
             else Unexpired(polls, timeout, checks)
    ensures forall k: nat :: k < checks ==> (Expires(polls, timeout, k) <==> Elapsed(polls, k) >= timeout)
    ensures timedOut <==> checks > 0 && Sum(polls, checks) >= timeout
    ensures Ticking(polls, checks) ==> checks <= if timedOut then timeout + 1 else timeout
  {
    PacedChecksAreTrue(polls, timeout, checks);
    if checks > 0 {
      assert Expires(polls, timeout, checks - 1) <==> Elapsed(polls, checks - 1) >= timeout;
    }
    if Ticking(polls, checks) {
      BoundedPolls(polls, timeout, if timedOut then checks - 1 else checks);
    }
  }

  class Uart {
    const depth: nat
    var fifo: seq<u8>
    var wire: seq<u8>      // everything shifted out since reset
    var received: seq<RxEntry>
    var status: Flags        // RSR

    ghost predicate Valid()
      reads this
    {
      0 < depth && |fifo| <= depth
    }

    /** Everything ever accepted for transmission, in order. */
    ghost function Sent(): seq<u8>
      reads this
    {
      wire + fifo
    }

    constructor (depth: nat)
      requires 0 < depth
      ensures Valid() && this.depth == depth && Sent() == [] && received == []
    {
      this.depth := depth;
      fifo, wire, received, status := [], [], [], CLEAR_FLAGS;
    }

    /** Hardware shifts up to `n` bytes onto the wire. */
    method Drain(n: nat)
      requires Valid()
      modifies this`fifo, this`wire
      ensures Valid() && Sent() == old(Sent())
      ensures |fifo| == Less(|old(fifo)|, n)
    {
      var k := if n <= |fifo| then n else |fifo|;
      assert fifo == fifo[..k] + fifo[k..];
      assert wire + fifo == (wire + fifo[..k]) + fifo[k..];
      wire, fifo := wire + fifo[..k], fifo[k..];
    }

    /** Enqueue one byte unless the FIFO is full; draining between the check and the write is harmless. */
    method TryWrite(byte: u8, lateDrain: nat) returns (ok: bool)
      requires Valid()
      modifies this`fifo, this`wire
      ensures Valid()
      ensures ok == (|old(fifo)| < depth)
      ensures |fifo| == Less(|old(fifo)|, lateDrain) + if ok then 1 else 0
      ensures Sent() == if ok then old(Sent()) + [byte] else old(Sent())
    {
      ok := |fifo| < depth;
      Drain(lateDrain);
      if ok {
        assert wire + (fifo + [byte]) == (wire + fifo) + [byte];
        fifo := fifo + [byte];
      }
    }

    /** Consume one entry; an erroneous one is reported once and its status cleared. */
    method TryRead() returns (r: Received)
      requires Valid()
      modifies this`received, this`status
      ensures old(received) == [] ==> r == Empty && received == [] && status == old(status)
      ensures old(received) != [] ==>
                var entry := old(received)[0];
                && received == old(received)[1..] && status == CLEAR_FLAGS
                && r == if entry.flags == CLEAR_FLAGS then Good(entry.data) else Bad(entry.flags)
    {
      if received == [] {
        return Empty;
      }
      var entry := received[0];
      var flags := entry.flags;
      received, status := received[1..], flags;
      if flags.framing || flags.parity || flags.breakDetected || flags.overrun {
        status := CLEAR_FLAGS;
        return Bad(flags);
      }
      r := Good(entry.data);
    }

    /** Hardware completes a received character. */
    method Receive(entry: RxEntry)
      requires Valid()
      modifies this`received
      ensures received == old(received) + [entry]
    {
      received := received + [entry];
    }

    /** One check and, unless the time is up, one attempt. */
    method PollOnce(byte: u8, counter: Counter, start: u32, timeout: u32, poll: Poll, ghost startTicks: nat)
      returns (expired: bool, written: bool)
      requires Valid() && start == Wrap(startTicks) && startTicks <= counter.ticks
      modifies this`fifo, this`wire, counter
      ensures Valid() && counter.ticks == old(counter.ticks) + poll.gap
      ensures expired == (Wrap(counter.ticks - startTicks) >= timeout)
      ensures written == (!expired && Less(|old(fifo)|, poll.drain) < depth)
      ensures Sent() == if written then old(Sent()) + [byte] else old(Sent())
      ensures !expired ==>
                |fifo| == Less(Less(|old(fifo)|, poll.drain), poll.lateDrain) + if written then 1 else 0
    {
      counter.Advance(poll.gap);
      var elapsed := counter.ElapsedSince(start, startTicks);
      expired, written := elapsed >= timeout, false;
      if !expired {
        Drain(poll.drain);
        written := TryWrite(byte, poll.lateDrain);
      }
    }

    /** Poll until one byte is enqueued, the time is up, or observation ends. */
    method PollByte(byte: u8, counter: Counter, start: u32, timeout: u32, polls: seq<Poll>, done: nat,
                    ghost startTicks: nat, ghost level: nat)
      returns (outcome: Outcome, checks: nat)
      requires Valid() && done <= |polls| && |fifo| == Level(polls, depth, level, done)
      requires start == Wrap(startTicks) && counter.ticks == startTicks + Sum(polls, done)
      requires Unexpired(polls, timeout, done)
      modifies this`fifo, this`wire, counter
      ensures Valid() && done <= checks <= |polls|
      ensures counter.ticks == startTicks + Sum(polls, checks)
      ensures Sent() == if outcome.Accepted? then old(Sent()) + [byte] else old(Sent())
      ensures outcome.Accepted? ==>
                && done < checks && |fifo| == Level(polls, depth, level, checks) && Unexpired(polls, timeout, checks)
                && Rooms(polls, depth, level, checks) == Rooms(polls, depth, level, done) + [checks - 1]
      ensures outcome.Polling? ==>
                && checks == |polls| && Unexpired(polls, timeout, checks)
                && Rooms(polls, depth, level, checks) == Rooms(polls, depth, level, done)
      ensures outcome.TimedOut? ==>
                && done < checks && Unexpired(polls, timeout, checks - 1) && Expires(polls, timeout, checks - 1)
                && Rooms(polls, depth, level, checks - 1) == Rooms(polls, depth, level, done)
    {
      checks := done;
      var written := false;
      while !written
        invariant Valid() && done <= checks <= |polls| && |fifo| == Level(polls, depth, level, checks)
        invariant counter.ticks == startTicks + Sum(polls, checks)
        invariant written ==> done < checks
        invariant Sent() == if written then old(Sent()) + [byte] else old(Sent())
        invariant Unexpired(polls, timeout, checks)
        invariant Rooms(polls, depth, level, checks)
               == Rooms(polls, depth, level, done) + if written then [checks - 1] else []
        decreases |polls| - checks, !written
      {
        if checks == |polls| {
          return Polling, checks;
        }
        var expired;
        expired, written := PollOnce(byte, counter, start, timeout, polls[checks], startTicks);
        checks := checks + 1;
        if expired {
          return TimedOut, checks;
        }
      }
      outcome := Accepted;
    }

    /** Every byte in turn, against one start time. */
    method PollBytes(bytes: seq<u8>, counter: Counter, start: u32, timeout: u32, polls: seq<Poll>,
                     ghost startTicks: nat)
      returns (outcome: Outcome, checks: nat, at: seq<nat>)
      requires Valid() && start == Wrap(startTicks) && counter.ticks == startTicks
      modifies this`fifo, this`wire, counter
      ensures Valid() && checks <= |polls| && counter.ticks == startTicks + Sum(polls, checks)
      ensures |at| <= |bytes| && Sent() == old(Sent()) + bytes[..|at|]
      ensures outcome.Accepted? <==> |at| == |bytes|
      ensures outcome.Polling? ==> checks == |polls|
      ensures if outcome.TimedOut?
              then checks > 0 && Unexpired(polls, timeout, checks - 1) && Expires(polls, timeout, checks - 1)
                   && at == Rooms(polls, depth, |old(fifo)|, checks - 1)
              else Unexpired(polls, timeout, checks) && at == Rooms(polls, depth, |old(fifo)|, checks)
    {
      outcome, checks, at := Accepted, 0, [];
      ghost var level := |fifo|;
      for i := 0 to |bytes|
        invariant Valid() && outcome.Accepted? && |at| == i && checks <= |polls|
        invariant Sent() == old(Sent()) + bytes[..i]
        invariant counter.ticks == startTicks + Sum(polls, checks)
        invariant |fifo| == Level(polls, depth, level, checks)
        invariant Unexpired(polls, timeout, checks) && at == Rooms(polls, depth, level, checks)
      {
        outcome, checks := PollByte(bytes[i], counter, start, timeout, polls, checks, startTicks, level);
        if !outcome.Accepted? {
          return;
        }
        at := at + [checks - 1];
        assert bytes[..i + 1] == bytes[..i] + [bytes[i]];
      }
      assert bytes[..|bytes|] == bytes;
    }

    /** Bound the whole enqueue by elapsed ticks, watched for as many checks as `polls` has. `at` gives, for
        each accepted byte, the check that let it in. */
    method WriteTimeout(bytes: seq<u8>, counter: Counter, timeout: u32, polls: seq<Poll>)
      returns (outcome: Outcome, checks: nat, at: seq<nat>)
      requires Valid()
      modifies this`fifo, this`wire, counter
      ensures Valid() && checks <= |polls|
      // Whatever drains and however far apart the checks are.
      ensures counter.ticks == old(counter.ticks) + Sum(polls, checks)
      ensures |at| <= |bytes| && Sent() == old(Sent()) + bytes[..|at|]
      ensures outcome.Accepted? ==> |at| == |bytes|
      ensures outcome.Polling? ==> |at| < |bytes| && checks == |polls|
      ensures timeout > MAX_TIMEOUT ==>
                outcome.TimedOut? && checks == |at| == 0 && fifo == old(fifo) && wire == old(wire)
      ensures timeout <= MAX_TIMEOUT && outcome.TimedOut? ==> |at| < |bytes| && checks > 0
      ensures timeout <= MAX_TIMEOUT ==>
                forall k: nat :: k < checks ==> (Expires(polls, timeout, k) <==> outcome.TimedOut? && k == checks - 1)
      // Bytes go in at exactly the unexpired polls that find room, one at each.
      ensures forall i, j :: 0 <= i < j < |at| ==> at[i] < at[j]
      ensures forall k: nat :: k in at <==>
                k < checks && !Expires(polls, timeout, k) && Room(polls, depth, |old(fifo)|, k)
      // So the polls alone decide how far the write gets and how it ends.
      ensures timeout <= MAX_TIMEOUT ==>
                var capacity := Capacity(polls, timeout, depth, |old(fifo)|);
                && |at| == (if capacity < |bytes| then capacity else |bytes|)
                && (outcome.Accepted? <==> capacity >= |bytes|)
                && (outcome.TimedOut? <==> capacity < |bytes| && Live(polls, timeout, |polls|) < |polls|)
      // While no wrap can hide the expiry, in true time.
      ensures timeout <= MAX_TIMEOUT && Paced(polls, timeout, checks) ==>
                && (forall k: nat :: k < checks ==> (Expires(polls, timeout, k) <==> Elapsed(polls, k) >= timeout))
                && (forall k: nat :: k in at ==> Elapsed(polls, k) < timeout)
                && (outcome.TimedOut? <==> checks > 0 && counter.ticks - old(counter.ticks) >= timeout)
      ensures timeout <= MAX_TIMEOUT && Paced(polls, timeout, checks) && Ticking(polls, checks) ==>
                checks <= if outcome.TimedOut? then timeout + 1 else timeout
    {
      checks, at := 0, [];
      if timeout > MAX_TIMEOUT {
        return TimedOut, 0, [];
      }
      var start := counter.Now();
      outcome, checks, at := PollBytes(bytes, counter, start, timeout, polls, counter.ticks);
      RoomsInOrder(polls, depth, |old(fifo)|, if outcome.TimedOut? then checks - 1 else checks);
      RoomsGrow(polls, depth, |old(fifo)|, if outcome.TimedOut? then checks - 1 else checks,
                Live(polls, timeout, |polls|));
      if Paced(polls, timeout, checks) {
        WriteStands(polls, timeout, checks, outcome.TimedOut?);
      }
    }
  }

  /** One elapsed-time check, as the program computes it from two wrapped readings. */
  predicate CheckExpires(start: nat, now: nat, timeout: u32) {
    WrappingSub(Wrap(now), Wrap(start)) >= timeout
  }

  /** The check `step` ticks after true elapsed time was `elapsed` agrees with true elapsed time. */
  predicate Truthful(start: nat, timeout: u32, elapsed: nat, step: nat) {
    CheckExpires(start, start + elapsed + step, timeout) <==> elapsed + step >= timeout
  }

  /** Every check following one that had not expired, at most `gap` ticks later, tells the truth. */
  ghost predicate ChecksAreTruthful(start: nat, timeout: u32, gap: nat) {
    forall elapsed: nat, step: nat ::
      elapsed < timeout && step <= gap ==> Truthful(start, timeout, elapsed, step)
  }

  /** The exact polling requirement: truthful exactly when polls are at most 2^32 - timeout apart.
      "Within one wrap" is not enough, and half a wrap always is. */
  lemma PollingGap(start: nat, timeout: u32, gap: nat)
    requires timeout <= MAX_TIMEOUT
    ensures ChecksAreTruthful(start, timeout, gap) <==> timeout == 0 || gap <= MODULUS - timeout
    ensures gap <= HALF ==> ChecksAreTruthful(start, timeout, gap)
  {
    if timeout == 0 || gap <= MODULUS - timeout {
      forall elapsed: nat, step: nat | elapsed < timeout && step <= gap
        ensures Truthful(start, timeout, elapsed, step)
      {
        ElapsedIsExact(start, start + elapsed + step);
      }
    } else {
      // One tick short of expiring, then a gap that lands exactly on the wrap.
      WrappingSubOfReadings(start + MODULUS, start);
      assert !Truthful(start, timeout, timeout - 1, MODULUS - timeout + 1);
    }
  }

  /** One tick more between polls is too much: a byte then goes in after the time is up, and the write
      reports success. */
  method LateByte(timeout: u32, now: nat) returns (polls: seq<Poll>, outcome: Outcome, at: seq<nat>)
    requires 0 < timeout <= MAX_TIMEOUT
    ensures forall k: nat :: k < |polls| ==> polls[k].gap <= MODULUS - timeout + 1
    ensures outcome.Accepted? && |at| == 1 && at[0] < |polls| && Elapsed(polls, at[0]) >= timeout
  {
    var uart := new Uart(1);
    var counter := new Counter(now);
    var _ := uart.TryWrite(0, 0);
    polls := [Poll(timeout - 1, 0, 0), Poll(MODULUS - timeout + 1, 1, 0)];
    assert Sum(polls, 1) == timeout - 1;
    assert !Expires(polls, timeout, 0) && !Room(polls, 1, 1, 0);
    assert Sum(polls, 2) == MODULUS && !Expires(polls, timeout, 1);
    assert Level(polls, 1, 1, 1) == 1 && Room(polls, 1, 1, 1);
    var checks;
    outcome, checks, at := uart.WriteTimeout([1], counter, timeout, polls);
    assert 0 !in at;
    assert checks == 2 ==> 1 in at;
    assert at[0] in at;
  }
}
