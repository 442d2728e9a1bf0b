/** The bring-up application: clock, banner, checks, pass line, then the endless echo and blink loop. Each wait
    and write is watched for as many polls as it is given, so the results hold at every moment of every run. */
module Echo {
  import opened Word32
  import M = TimerMachine
  import P = TimerProtocol
  import B = TimerBringup
  import T = TimerTicks
  import U = Uart
  import Gpio

  const TIMEOUT: u32 := 48_000_000
  const RED: nat := 6
  const GREEN: nat := 7

  function Ascii(text: string): (bytes: seq<u8>)
    ensures |bytes| == |text|
    ensures forall i | 0 <= i < |text| :: text[i] < 256 as char ==> bytes[i] == text[i] as int
  {
    seq(|text|, i requires 0 <= i < |text| => text[i] as int % 256)
  }

  const BANNER := Ascii("DIRECT_LINE_RUST v1\r\n")
  const MEMORY_FAILURE := Ascii("RESULT FAIL memory initialization\r\n")
  const TIMER_FAILURE := Ascii("RESULT FAIL timer interrupt\r\n")
  const PASS := Ascii("RESULT PASS bringup\r\n")
  const RX_ERROR := Ascii("RX_ERROR\r\n")

  /** What the application sends for one received entry: a good character back, an error line for any other. */
  function Reply(entry: U.RxEntry): (bytes: seq<u8>)
    ensures 1 <= |bytes| <= |RX_ERROR|
  {
    if entry.flags == U.CLEAR_FLAGS then [entry.data] else RX_ERROR
  }

  lemma NextCount(n: nat)
    ensures (Wrap(n) + 1) % MODULUS == Wrap(n + 1)
    ensures Wrap(n + 1) % 2 == 1 <==> Wrap(n) % 2 == 0
  {
    var q, r := n / MODULUS, n % MODULUS;
    ModuloAddsMultiples(r + 1, q);
    assert r + 1 + q * MODULUS == n + 1;
  }

  function Replies(entries: seq<U.RxEntry>): seq<u8>
    decreases |entries|
  {
    if entries == [] then [] else Replies(entries[..|entries| - 1]) + Reply(entries[|entries| - 1])
  }

  /** How far something has got: finished, panicked, or not yet either. */
  datatype Progress = Done | Panicked | Ongoing

  /** How a write of `n` bytes stands, from its polls and the occupancy it finds: done if there is room before a
      check expires, otherwise panicked exactly if one does. */
  function Ending(polls: seq<U.Poll>, depth: nat, level: nat, n: nat): Progress {
    if U.Capacity(polls, TIMEOUT, depth, level) >= n then Done
    else if U.Live(polls, TIMEOUT, |polls|) < |polls| then Panicked
    else Ongoing
  }

  /** The bytes of it that are sent. */
  function Fitting(polls: seq<U.Poll>, depth: nat, level: nat, bytes: seq<u8>): seq<u8> {
    var room := U.Capacity(polls, TIMEOUT, depth, level);
    if room < |bytes| then bytes[..room] else bytes
  }

  /** One more entry answered: what is sent stays within the replies, reaches them exactly when the write is done,
      and falls short of the last one only. */
  lemma AnswerOne(before: seq<u8>, was: seq<U.RxEntry>, entry: U.RxEntry, polls: seq<U.Poll>, depth: nat, level: nat)
    ensures var now := was + [entry];
            var sent := before + Replies(was) + Fitting(polls, depth, level, Reply(entry));
            && before <= sent <= before + Replies(now)
            && (Ending(polls, depth, level, |Reply(entry)|).Done? <==> sent == before + Replies(now))
            && now[..|now| - 1] == was && before + Replies(was) <= sent
  {
    var now := was + [entry];
    assert now[..|was|] == was;
    assert before + Replies(now) == before + Replies(was) + Reply(entry);
  }

  // ---- Bounded waits ----

  /** The first poll that succeeds, within the polls seen and the budget. */
  function First(polls: seq<bool>, budget: nat): (at: nat)
    ensures at <= |polls| && at <= budget
  {
    if polls == [] || budget == 0 || polls[0] then 0 else 1 + First(polls[1..], budget - 1)
  }

  lemma {:induction false} FirstIsFirst(polls: seq<bool>, budget: nat, at: nat)
    requires at <= |polls| && at <= budget
    ensures at == First(polls, budget) <==>
            (forall j | 0 <= j < at :: !polls[j]) && (at < |polls| && at < budget ==> polls[at])
  {
    if polls == [] || budget == 0 {
    } else if at == 0 {
    } else {
      FirstIsFirst(polls[1..], budget - 1, at - 1);
      assert forall j | 1 <= j < |polls| :: polls[j] == polls[1..][j - 1];
    }
  }

  function Waited(polls: seq<bool>, budget: nat): Progress {
    var at := First(polls, budget);
    if at == budget then Panicked else if at == |polls| then Ongoing else Done
  }

  /** `wait_for`: poll until the condition holds, or panic when the budget is used up. */
  method WaitFor(budget: nat, polls: seq<bool>) returns (progress: Progress, at: nat)
    ensures at == First(polls, budget) && progress == Waited(polls, budget)
    ensures progress.Done? <==> at < |polls| && at < budget && polls[at]
    ensures progress.Panicked? <==> budget <= |polls| && forall j | 0 <= j < budget :: !polls[j]
    ensures forall j | 0 <= j < at :: !polls[j]
  {
    at := 0;
    while at < budget
      invariant at <= budget && at <= |polls| && forall j | 0 <= j < at :: !polls[j]
    {
      if at == |polls| {
        FirstIsFirst(polls, budget, at);
        return Ongoing, at;
      }
      if polls[at] {
        FirstIsFirst(polls, budget, at);
        return Done, at;
      }
      at := at + 1;
    }
    FirstIsFirst(polls, budget, at);
    progress := Panicked;
  }

  // ---- What the checks see ----

  const INITIALISED: u32 := 0x1234_abcd
  const HANDSHAKES: nat := 2_000_000
  const SERVICE_POLLS: nat := 48_000_000
  const QUIET_POLLS: nat := 1_000_000

  /** One poll while the timer runs periodically: counter ticks since the start, and its interrupts. */
  datatype Reading = Reading(elapsed: u32, interrupts: u32)

  predicate Ends(r: Reading) {
    r.elapsed >= TIMEOUT || r.interrupts >= 20
  }

  function Endings(readings: seq<Reading>): seq<bool> {
    seq(|readings|, k requires 0 <= k < |readings| => Ends(readings[k]))
  }

  /** What the program reads before its loop, and the polls of its two writes. */
  datatype Boot = Boot(
    switched: seq<bool>, banner: seq<U.Poll>,
    data: u32, bss: u32,
    service: seq<Reading>,
    stopped: u32, silence: seq<bool>, afterSilence: u32,
    waiting: seq<bool>, afterOneShot: u32,
    verdict: seq<U.Poll>)

  predicate MemoryGood(b: Boot) {
    b.data == INITIALISED && b.bss == 0
  }

  /** The wait for interrupt service ended with the second over. */
  predicate TimedOut(service: seq<Reading>) {
    var at := First(Endings(service), SERVICE_POLLS);
    at < |service| && at < SERVICE_POLLS && service[at].elapsed >= TIMEOUT
  }

  /** Poll the counter and the interrupt count: silent if the second is over at a poll that ends the wait. */
  method AwaitService(service: seq<Reading>) returns (progress: Progress, silent: bool)
    ensures progress == Waited(Endings(service), SERVICE_POLLS) && silent == TimedOut(service)
  {
    var at := 0;
    while at < 48_000_000
      invariant at <= |service| && at <= 48_000_000
      invariant forall j | 0 <= j < at :: service[j].elapsed < TIMEOUT && service[j].interrupts < 20
    {
      if at == |service| {
        FirstIsFirst(Endings(service), SERVICE_POLLS, at);
        return Ongoing, false;
      }
      if service[at].elapsed >= TIMEOUT || service[at].interrupts >= 20 {
        FirstIsFirst(Endings(service), SERVICE_POLLS, at);
        return Done, service[at].elapsed >= TIMEOUT;
      }
      at := at + 1;
    }
    FirstIsFirst(Endings(service), SERVICE_POLLS, at);
    return Panicked, false;
  }

  predicate TimerAssertions(b: Boot) {
    b.afterSilence == b.stopped && b.afterOneShot == Wrap(b.stopped + 1)
  }

  function Asserted(condition: bool): Progress {
    if condition then Done else Panicked
  }

  function Then(first: Progress, next: Progress): Progress {
    if first.Done? then next else first
  }

  /** The timer checks in order, if the timer is not found silent: each runs once those before it are done. */
  function TimerProgress(b: Boot): Progress {
    Then(Waited(Endings(b.service), SERVICE_POLLS),
         Then(Waited(b.silence, QUIET_POLLS),
              Then(Asserted(b.afterSilence == b.stopped),
                   Then(Waited(b.waiting, QUIET_POLLS), Asserted(b.afterOneShot == Wrap(b.stopped + 1))))))
  }

  /** How the checks come out, if they are left to finish. */
  datatype Checks = Passed | ClockNotReady | MemoryBad | TimerSilent | NoVerdict

  function Judge(b: Boot): Checks {
    if Waited(b.switched, HANDSHAKES) != Done then ClockNotReady
    else if !MemoryGood(b) then MemoryBad
    else if TimedOut(b.service) then TimerSilent
    else if Waited(Endings(b.service), SERVICE_POLLS) == Done && Waited(b.silence, QUIET_POLLS) == Done
         && Waited(b.waiting, QUIET_POLLS) == Done && TimerAssertions(b) then Passed
    else NoVerdict
  }

  /** The counts of any run of the timer machine through the bring-up sequence meet the assertions exactly when
      the one-shot's timeout has been served by the end of the wait. */
  lemma MachineMeetsAssertions(b: Boot, s: M.Gpt, r: B.Session)
    requires B.Follows(s, r) && T.CountTicks(r.waiting) >= B.INTERVAL_TICKS
    requires b.stopped == B.Stopped(s, r).log.count && b.afterSilence == B.Silent(s, r).log.count
    requires b.afterOneShot == B.Expired(s, r).log.count
    ensures TimerAssertions(b) <==> M.Owed(B.Expired(s, r)) == 0
  {
    B.BringupChecks(s, r);
  }

  /** The line that reports the checks; other failures panic without one. */
  function Verdict(checks: Checks): seq<u8> {
    match checks
    case Passed => PASS
    case MemoryBad => MEMORY_FAILURE
    case TimerSilent => TIMER_FAILURE
    case ClockNotReady => []
    case NoVerdict => []
  }

  /** Everything that may be sent, given how the checks come out and what was read. */
  function Script(checks: Checks, consumed: seq<U.RxEntry>): seq<u8> {
    if checks.ClockNotReady? then [] else BANNER + Verdict(checks) + Replies(consumed)
  }

  lemma ScriptOpens(checks: Checks)
    ensures !checks.ClockNotReady? ==> Script(checks, []) == BANNER + Verdict(checks)
  {
    assert BANNER + Verdict(checks) + [] == BANNER + Verdict(checks);
  }

  // ---- The loop ----

  /** One turn of the loop as the environment shapes it: ISR completions since reset when the count is
      loaded, characters received before the read, and the polls of the write. */
  datatype Turn = Turn(completions: nat, arrivals: seq<U.RxEntry>, polls: seq<U.Poll>)

  /** Every character the environment delivers over some turns. */
  function Arrived(turns: seq<Turn>): seq<U.RxEntry>
    decreases |turns|
  {
    if turns == [] then [] else Arrived(turns[..|turns| - 1]) + turns[|turns| - 1].arrivals
  }

  /** Entries taken over some turns, one in each that finds any waiting. */
  function Taken(turns: seq<Turn>, queued: nat): nat
    decreases |turns|
  {
    if turns == [] then 0
    else
      var before := Taken(turns[..|turns| - 1], queued);
      before + if before < queued + |Arrived(turns)| then 1 else 0
  }

  /** The completion total at the last count load of some turns, the first sample coming before them. */
  function LastLoad(turns: seq<Turn>, first: nat): nat {
    if turns == [] then first else turns[|turns| - 1].completions
  }

  /** Turns whose 32-bit count load differs from the load before it. */
  function Changes(turns: seq<Turn>, first: nat): nat
    decreases |turns|
  {
    if turns == [] then 0
    else
      var before := turns[..|turns| - 1];
      Changes(before, first) + if Wrap(LastLoad(before, first)) == Wrap(LastLoad(turns, first)) then 0 else 1
  }

  /** The history functions one turn later. */
  lemma OneMoreTurn(turns: seq<Turn>, k: nat, first: nat, queued: nat)
    requires k < |turns|
    ensures Taken(turns[..k + 1], queued) == Taken(turns[..k], queued)
      + if Taken(turns[..k], queued) < queued + |Arrived(turns[..k + 1])| then 1 else 0
    ensures LastLoad(turns[..k + 1], first) == turns[k].completions
    ensures Arrived(turns[..k + 1]) == Arrived(turns[..k]) + turns[k].arrivals
    ensures Changes(turns[..k + 1], first) == Changes(turns[..k], first)
      + if Wrap(LastLoad(turns[..k], first)) == Wrap(turns[k].completions) then 0 else 1
  {
    assert turns[..k + 1][..k] == turns[..k];
  }

  class Application {
    const uart: U.Uart
    const counter: U.Counter
    const gpio: Gpio.Bank
    var blinkCount: u32
    // History: entries consumed by the loop, loop blinks, and completions when `previous` was first sampled.
    var consumed: seq<U.RxEntry>
    var blinks: nat
    var sampled: nat
    var seen: nat        // completions at the last count load
    var testStatus: nat  // TIMER_TEST_STATUS

    ghost predicate Valid()
      reads this, uart, gpio
    {
      && uart.Valid() && gpio.Valid()
      && blinkCount == Wrap(blinks)
      && sampled <= seen && blinks <= seen - sampled
      && gpio.latch[RED] == gpio.latch[GREEN] == (blinkCount % 2 == 1)
    }

    /** What the loop has sent after `before`: its replies so far, and all of them unless a write has timed out
        or is under way. */
    ghost predicate Answered(before: seq<u8>, progress: Progress)
      reads this, uart
    {
      && before <= uart.Sent() <= before + Replies(consumed)
      && (progress.Done? <==> uart.Sent() == before + Replies(consumed))
      && (!progress.Done? ==> consumed != [] && before + Replies(consumed[..|consumed| - 1]) <= uart.Sent())
    }

    /** A turn panics only if one of its checks expired, is under way only if none has, and is done whenever there
        is room for its reply. */
    ghost predicate Explained(turn: Turn, progress: Progress) {
      var live := U.Live(turn.polls, TIMEOUT, |turn.polls|);
      && (progress.Panicked? ==> live < |turn.polls|)
      && (progress.Ongoing? ==> live == |turn.polls|)
      && (U.Ample(turn.polls, TIMEOUT, uart.depth, |RX_ERROR|) ==> progress.Done?)
    }

    /** Room for whatever reply any turn has to send. */
    ghost predicate RoomForReplies(turns: seq<Turn>) {
      forall turn <- turns :: U.Ample(turn.polls, TIMEOUT, uart.depth, |RX_ERROR|)
    }

    /** The counts after `k` turns, with `first` completions at the first sample. */
    ghost predicate Counted(turns: seq<Turn>, k: nat, first: nat)
      requires k <= |turns|
      reads this
    {
      seen == LastLoad(turns[..k], first) && blinks == Changes(turns[..k], first)
    }

    /** The entries after `k` turns, `queued` being there at first: none lost, none out of order,
        and one taken in each turn that has one waiting. */
    ghost predicate Received(turns: seq<Turn>, k: nat, queued: seq<U.RxEntry>)
      requires k <= |turns|
      reads this, uart
    {
      && consumed + uart.received == queued + Arrived(turns[..k])
      && |consumed| == Taken(turns[..k], |queued|)
    }

    /** As the board hands it over: nothing sent, both LEDs low. */
    constructor (depth: nat)
      requires 0 < depth
      ensures Valid() && fresh(uart) && fresh(counter) && fresh(gpio)
      ensures uart.Sent() == [] && consumed == [] && blinks == 0 && testStatus == 0 && uart.received == []
    {
      uart := new U.Uart(depth);
      counter := new U.Counter(0);
      var low := seq(32, _ => false);
      gpio := new Gpio.Bank(low, low);
      blinkCount, consumed, blinks, sampled, seen, testStatus := 0, [], 0, 0, 0, 0;
    }

    /** A blocking write: what is sent and how it stands depend only on its polls and the FIFO it finds. */
    method Send(bytes: seq<u8>, polls: seq<U.Poll>) returns (progress: Progress)
      requires uart.Valid()
      modifies uart`fifo, uart`wire, counter
      ensures uart.Valid()
      ensures uart.Sent() == old(uart.Sent()) + Fitting(polls, uart.depth, |old(uart.fifo)|, bytes)
      ensures progress == Ending(polls, uart.depth, |old(uart.fifo)|, |bytes|)
      ensures old(uart.Sent()) <= uart.Sent() <= old(uart.Sent()) + bytes
      ensures progress.Done? <==> uart.Sent() == old(uart.Sent()) + bytes
      ensures U.Ample(polls, TIMEOUT, uart.depth, |bytes|) ==> progress.Done?
    {
      var outcome, _, at := uart.WriteTimeout(bytes, counter, TIMEOUT, polls);
      match outcome {
        case Accepted => progress := Done;
        case TimedOut => progress := Panicked;
        case Polling => progress := Ongoing;
      }
      assert bytes[..|bytes|] == bytes;
    }

    /** Toggle both LEDs and the blink count if the acknowledgement count moved since `previous`. */
    method Blink(previous: u32, completions: nat) returns (current: u32)
      requires Valid() && previous == Wrap(seen) && seen <= completions
      modifies this`blinkCount, this`blinks, this`seen, gpio`latch
      ensures Valid() && seen == completions && current == Wrap(seen)
      ensures blinks == old(blinks) + if Wrap(old(seen)) == Wrap(seen) then 0 else 1
    {
      current := completions % MODULUS;
      seen := completions;
      if current != previous {
        NextCount(blinks);
        gpio.ToggleLevel(RED);
        gpio.ToggleLevel(GREEN);
        blinkCount, blinks := (blinkCount + 1) % MODULUS, blinks + 1;
      }
    }

    method ReceiveAll(arrivals: seq<U.RxEntry>)
      requires uart.Valid()
      modifies uart`received
      ensures uart.Valid() && uart.Sent() == old(uart.Sent())
      ensures uart.received == old(uart.received) + arrivals
    {
      for i := 0 to |arrivals|
        invariant uart.Valid() && uart.received == old(uart.received) + arrivals[..i]
      {
        uart.Receive(arrivals[i]);
        assert arrivals[..i + 1] == arrivals[..i] + [arrivals[i]];
      }
      assert arrivals[..|arrivals|] == arrivals;
    }

    /** Characters arrive, and the oldest entry is taken. */
    method ReadOne(arrivals: seq<U.RxEntry>) returns (r: U.Received)
      requires uart.Valid()
      modifies this`consumed, uart`received, uart`status
      ensures uart.Valid() && uart.Sent() == old(uart.Sent()) && uart.fifo == old(uart.fifo)
      ensures var queue := old(uart.received) + arrivals;
              if queue == [] then r == U.Empty && consumed == old(consumed) && uart.received == []
              else && consumed == old(consumed) + [queue[0]] && uart.received == queue[1..]
                   && r == if queue[0].flags == U.CLEAR_FLAGS then U.Good(queue[0].data) else U.Bad(queue[0].flags)
    {
      ReceiveAll(arrivals);
      var waiting := uart.received;
      r := uart.TryRead();
      if waiting != [] {
        consumed := consumed + [waiting[0]];
      }
    }

    /** Consume the oldest received entry, if any, and send its reply. */
    method EchoOne(arrivals: seq<U.RxEntry>, polls: seq<U.Poll>) returns (progress: Progress)
      requires uart.Valid()
      modifies this`consumed, uart, counter
      ensures uart.Valid()
      ensures var queue := old(uart.received) + arrivals;
              if queue == [] then
                progress.Done? && consumed == old(consumed) && uart.received == [] && uart.Sent() == old(uart.Sent())
              else
                var reply := Reply(queue[0]);
                && consumed == old(consumed) + [queue[0]] && uart.received == queue[1..]
                && uart.Sent() == old(uart.Sent()) + Fitting(polls, uart.depth, |old(uart.fifo)|, reply)
                && progress == Ending(polls, uart.depth, |old(uart.fifo)|, |reply|)
      ensures consumed + uart.received == old(consumed + uart.received) + arrivals
    {
      ghost var was, queue := consumed, uart.received + arrivals;
      assert queue != [] ==> was + queue == was + [queue[0]] + queue[1..];
      assert was + queue == was + uart.received + arrivals;
      var r := ReadOne(arrivals);
      match r {
        case Empty => progress := Done;
        case Good(data) => progress := Send([data], polls);
        case Bad(_) => progress := Send(RX_ERROR, polls);
      }
    }

    /** The blink half of a turn. */
    method BlinkTurn(previous: u32, turns: seq<Turn>, k: nat, ghost first: nat) returns (current: u32)
      requires k < |turns| && Valid() && previous == Wrap(seen) && seen <= turns[k].completions
      requires Counted(turns, k, first)
      modifies this`blinkCount, this`blinks, this`seen, gpio`latch
      ensures Valid() && current == Wrap(seen) && Counted(turns, k + 1, first)
    {
      OneMoreTurn(turns, k, first, 0);
      current := Blink(previous, turns[k].completions);
    }

    /** The echo half: the replies sent grow by the one to the entry taken. */
    method EchoTurn(turns: seq<Turn>, k: nat, ghost queued: seq<U.RxEntry>, ghost before: seq<u8>)
      returns (progress: Progress)
      requires k < |turns| && uart.Valid() && Received(turns, k, queued) && Answered(before, Done)
      modifies this`consumed, uart, counter
      ensures uart.Valid() && Received(turns, k + 1, queued) && Answered(before, progress)
      ensures Explained(turns[k], progress)
    {
      ghost var was, queue, level := consumed, uart.received + turns[k].arrivals, |uart.fifo|;
      OneMoreTurn(turns, k, 0, |queued|);
      assert queued + Arrived(turns[..k]) + turns[k].arrivals == queued + (Arrived(turns[..k]) + turns[k].arrivals);
      progress := EchoOne(turns[k].arrivals, turns[k].polls);
      if queue != [] {
        AnswerOne(before, was, queue[0], turns[k].polls, uart.depth, level);
      }
    }

    /** One turn of the loop. */
    method TakeTurn(previous: u32, turns: seq<Turn>, k: nat, ghost first: nat, ghost queued: seq<U.RxEntry>,
                    ghost before: seq<u8>)
      returns (current: u32, progress: Progress)
      requires k < |turns| && Valid() && previous == Wrap(seen) && seen <= turns[k].completions
      requires Counted(turns, k, first) && Received(turns, k, queued) && Answered(before, Done)
      modifies this`consumed, this`blinkCount, this`blinks, this`seen, uart, counter, gpio`latch
      ensures Valid() && current == Wrap(seen)
      ensures Counted(turns, k + 1, first) && Received(turns, k + 1, queued) && Answered(before, progress)
      ensures Explained(turns[k], progress)
    {
      current := BlinkTurn(previous, turns, k, first);
      progress := EchoTurn(turns, k, queued, before);
    }

    /** Any number of turns: one blink for each changed load, no received entry lost, and what was sent is
        the replies so far, short of them only if a write has timed out or is under way. */
    method Loop(turns: seq<Turn>, completions: nat, ghost before: seq<u8>) returns (progress: Progress, done: nat)
      requires Valid() && uart.Sent() == before && consumed == [] && blinks == 0
      requires forall k | 0 <= k < |turns| :: LastLoad(turns[..k], completions) <= turns[k].completions
      modifies this`consumed, this`blinkCount, this`blinks, this`sampled, this`seen, uart, counter, gpio`latch
      ensures Valid() && sampled == completions
      ensures done <= |turns| && (progress.Done? ==> done == |turns|)
      ensures !progress.Done? ==> done > 0 && Explained(turns[done - 1], progress)
      ensures RoomForReplies(turns) ==> progress.Done?
      ensures Answered(before, progress)
      ensures Counted(turns, done, completions) && Received(turns, done, old(uart.received))
    {
      var previous := completions % MODULUS;
      sampled, seen, progress := completions, completions, Done;
      assert before + Replies([]) == before;
      done := 0;
      while done < |turns| && progress.Done?
        invariant done <= |turns| && Valid() && sampled == completions && previous == Wrap(seen)
        invariant Counted(turns, done, completions) && Received(turns, done, old(uart.received))
        invariant Answered(before, progress)
        invariant !progress.Done? ==> done > 0 && Explained(turns[done - 1], progress)
        decreases |turns| - done
      {
        previous, progress := TakeTurn(previous, turns, done, completions, old(uart.received), before);
        done := done + 1;
      }
    }

    /** A failure line is sent as far as it goes; then the program panics, unless the write is still under way. */
    method Fail(line: seq<u8>, polls: seq<U.Poll>) returns (progress: Progress)
      requires uart.Valid()
      modifies uart`fifo, uart`wire, counter
      ensures uart.Valid()
      ensures uart.Sent() == old(uart.Sent()) + Fitting(polls, uart.depth, |old(uart.fifo)|, line)
      ensures old(uart.Sent()) <= uart.Sent() <= old(uart.Sent()) + line
      ensures progress == if Ending(polls, uart.depth, |old(uart.fifo)|, |line|).Ongoing? then Ongoing else Panicked
      ensures U.Ample(polls, TIMEOUT, uart.depth, |line|) ==>
                progress.Panicked? && uart.Sent() == old(uart.Sent()) + line
    {
      progress := Send(line, polls);
      if progress.Done? {
        progress := Panicked;
      }
    }

    /** Interrupt service within a second, silence after the stop, both bad requests refused, and one interrupt
        from the one-shot. */
    method CheckTimer(b: Boot) returns (progress: Progress)
      requires uart.Valid()
      requires Waited(b.switched, HANDSHAKES) == Done && MemoryGood(b)
      modifies this`testStatus, uart`fifo, uart`wire, counter
      ensures uart.Valid()
      ensures progress.Done? <==> Judge(b) == Passed
      ensures !TimedOut(b.service) ==> progress == TimerProgress(b) && uart.Sent() == old(uart.Sent())
      ensures TimedOut(b.service) && U.Ample(b.verdict, TIMEOUT, uart.depth, |TIMER_FAILURE|) ==>
                progress.Panicked? && uart.Sent() == old(uart.Sent()) + TIMER_FAILURE
      ensures TimedOut(b.service) ==>
                && uart.Sent() == old(uart.Sent()) + Fitting(b.verdict, uart.depth, |old(uart.fifo)|, TIMER_FAILURE)
                && progress == if Ending(b.verdict, uart.depth, |old(uart.fifo)|, |TIMER_FAILURE|).Ongoing? then Ongoing
                               else Panicked
      ensures testStatus == if progress.Done? then 2 else 1
      ensures old(uart.Sent()) <= uart.Sent() <= old(uart.Sent()) + Verdict(Judge(b))
    {
      testStatus := 1;
      var silent;
      progress, silent := AwaitService(b.service);
      if silent {
        progress := Fail(TIMER_FAILURE, b.verdict);
        return;
      }
      if !progress.Done? {
        return;
      }
      var at;
      progress, at := WaitFor(1_000_000, b.silence);
      if !progress.Done? {
        return;
      }
      if b.afterSilence != b.stopped
         || P.Accepts(M.CallArm(0, M.Periodic)) || P.Accepts(M.CallArm(0xffff_ffff, M.Periodic)) {
        return Panicked;
      }
      progress, at := WaitFor(1_000_000, b.waiting);
      if !progress.Done? {
        return;
      }
      if b.afterOneShot != (b.stopped + 1) % MODULUS {
        return Panicked;
      }
      testStatus := 2;
    }

    /** The memory and timer checks and the line that reports them. */
    method Report(b: Boot) returns (progress: Progress)
      requires uart.Valid() && Waited(b.switched, HANDSHAKES) == Done && testStatus == 0
      modifies this`testStatus, uart`fifo, uart`wire, counter
      ensures uart.Valid() && old(uart.Sent()) <= uart.Sent() <= old(uart.Sent()) + Verdict(Judge(b))
      ensures progress.Done? <==> Judge(b) == Passed && uart.Sent() == old(uart.Sent()) + PASS
      ensures U.Ample(b.verdict, TIMEOUT, uart.depth, |Verdict(Judge(b))|) ==>
                uart.Sent() == old(uart.Sent()) + Verdict(Judge(b))
      ensures testStatus == 2 <==> Judge(b) == Passed
    {
      if b.data != 0x1234_abcd || b.bss != 0 {
        progress := Fail(MEMORY_FAILURE, b.verdict);
        return;
      }
      progress := CheckTimer(b);
      if progress.Done? {
        progress := Send(PASS, b.verdict);
      }
    }

    /** Room for the banner and for the line that reports the checks. */
    ghost predicate RoomForOpening(b: Boot) {
      && U.Ample(b.banner, TIMEOUT, uart.depth, |BANNER|)
      && U.Ample(b.verdict, TIMEOUT, uart.depth, |Verdict(Judge(b))|)
    }

    /** Everything before the loop. */
    method Check(b: Boot) returns (progress: Progress)
      requires uart.Valid() && uart.Sent() == [] && testStatus == 0
      modifies this`testStatus, uart`fifo, uart`wire, counter
      ensures uart.Valid() && uart.Sent() <= Script(Judge(b), [])
      ensures progress.Done? <==> Judge(b) == Passed && uart.Sent() == Script(Passed, [])
      ensures RoomForOpening(b) ==> uart.Sent() == Script(Judge(b), [])
      ensures testStatus == 2 <==> Judge(b) == Passed && BANNER <= uart.Sent()
    {
      var at;
      progress, at := WaitFor(2_000_000, b.switched);
      ScriptOpens(Judge(b));
      if progress.Done? {
        progress := Send(BANNER, b.banner);
        if progress.Done? {
          assert uart.Sent() == BANNER;
          progress := Report(b);
        }
      }
    }

    /** The whole program: at every moment the bytes sent are a prefix of the script, and all of it while the
        loop is between turns. */
    method Bringup(b: Boot, completions: nat, turns: seq<Turn>) returns (progress: Progress)
      requires Valid() && uart.Sent() == [] && consumed == [] && blinks == 0 && testStatus == 0
      requires forall k | 0 <= k < |turns| :: LastLoad(turns[..k], completions) <= turns[k].completions
      modifies this, uart, counter, gpio`latch
      ensures Valid()
      ensures uart.Sent() <= Script(Judge(b), consumed)
      ensures progress.Done? <==> Judge(b) == Passed && uart.Sent() == Script(Passed, consumed)
      ensures RoomForOpening(b) && RoomForReplies(turns) ==>
                uart.Sent() == Script(Judge(b), consumed) && (Judge(b) == Passed ==> progress.Done?)
      ensures progress.Done? ==>
                Received(turns, |turns|, old(uart.received)) && Counted(turns, |turns|, completions)
      ensures Judge(b) != Passed ==> consumed == [] && blinks == 0
      ensures testStatus == 2 <==> Judge(b) == Passed && BANNER <= uart.Sent()
    {
      progress := Check(b);
      if progress.Done? {
        ScriptOpens(Passed);
        var done;
        progress, done := Loop(turns, completions, BANNER + PASS);
        assert turns[..|turns|] == turns;
      }
    }
  }
}
