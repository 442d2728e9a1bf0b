/** `Timer::stop`, `Timer::arm` and the interrupt handler as straight-line register accesses, with the hardware
    (and, for the foreground, the ISR) free to run between any two of them. */
module TimerDriver {
  import opened Word32
  import opened TimerMachine
  import opened TimerProtocol

  /** Whose accesses a method makes: the foreground's or the ISR's. */
  datatype Actor = Foreground | Handler

  function AccessEvent(who: Actor): Event {
    if who.Foreground? then ForegroundStep else IsrStep
  }

  /** What may happen between two accesses; a handler is not interrupted by its own timer. */
  predicate Between(events: seq<Event>, who: Actor) {
    forall e <- events :: IsBackground(e) && (who.Handler? ==> !e.IsrStep?)
  }

  ghost predicate AllBetween(noise: seq<seq<Event>>, who: Actor) {
    forall k | 0 <= k < |noise| :: Between(noise[k], who)
  }

  function IsrStepsLeft(pc: IsrPc): nat {
    match pc
    case Inactive => 0
    case AtClear => 3
    case AtSettle => 2
    case AtCount => 1
  }

  /** What precedes an access: the given events, then for the foreground the ISR to its return. */
  predicate IsLead(lead: seq<Event>, noise: seq<Event>, who: Actor) {
    && |noise| <= |lead| <= |noise| + 3
    && lead[..|noise|] == noise
    && forall i | |noise| <= i < |lead| :: who.Foreground? && lead[i].IsrStep?
  }

  /** One access with what precedes it. */
  predicate IsSegment(segment: seq<Event>, noise: seq<Event>, who: Actor) {
    && segment != []
    && IsLead(segment[..|segment| - 1], noise, who)
    && segment[|segment| - 1] == AccessEvent(who)
  }

  /** One segment for each entry of `noise`, in order. */
  ghost predicate Woven(segments: seq<seq<Event>>, noise: seq<seq<Event>>, who: Actor) {
    |segments| == |noise| && forall k | 0 <= k < |noise| :: IsSegment(segments[k], noise[k], who)
  }

  /** The machine after a run given in segments. */
  function RunAll(s: Gpt, segments: seq<seq<Event>>): Gpt
    decreases |segments|
  {
    if segments == [] then s
    else Run(RunAll(s, segments[..|segments| - 1]), segments[|segments| - 1])
  }

  function Flatten(segments: seq<seq<Event>>): seq<Event>
    decreases |segments|
  {
    if segments == [] then [] else Flatten(segments[..|segments| - 1]) + segments[|segments| - 1]
  }

  lemma {:induction false} RunAllIsRun(s: Gpt, segments: seq<seq<Event>>)
    ensures RunAll(s, segments) == Run(s, Flatten(segments))
    decreases |segments|
  {
    if segments == [] {
    } else {
      var last := |segments| - 1;
      RunAllIsRun(s, segments[..last]);
      RunConcat(s, Flatten(segments[..last]), segments[last]);
    }
  }

  lemma Append(s: Gpt, segments: seq<seq<Event>>, segment: seq<Event>) returns (longer: seq<seq<Event>>)
    ensures longer == segments + [segment]
    ensures RunAll(s, longer) == Run(RunAll(s, segments), segment)
  {
    longer := segments + [segment];
    assert longer[..|segments|] == segments;
  }

  lemma {:induction false} RunAllConcat(s: Gpt, first: seq<seq<Event>>, second: seq<seq<Event>>)
    ensures RunAll(RunAll(s, first), second) == RunAll(s, first + second)
    decreases |second|
  {
    if second == [] {
      assert first + second == first;
    } else {
      var last := |second| - 1;
      RunAllConcat(s, first, second[..last]);
      var all := Append(s, first + second[..last], second[last]);
      assert all == first + second;
    }
  }

  /** While a handler runs, nothing but its own steps moves it or its count. */
  lemma HandlerFrame(s: Gpt, e: Event)
    requires !s.isr.Inactive? && IsBackground(e) && !e.IsrStep?
    ensures var t := Step(s, e); t.isr == s.isr && t.log == s.log.(timeouts := t.log.timeouts)
  {}

  lemma {:induction false} BackgroundRun(s: Gpt, events: seq<Event>)
    requires Background(events)
    ensures Run(s, events).fg == s.fg
    decreases |events|
  {
    if events == [] {
    } else {
      BackgroundRun(s, events[..|events| - 1]);
      BackgroundFrame(Run(s, events[..|events| - 1]), events[|events| - 1]);
    }
  }

  lemma RunAllKeepsInv(s: Gpt, segments: seq<seq<Event>>)
    requires Inv(s)
    ensures Inv(RunAll(s, segments))
  {
    RunAllIsRun(s, segments);
    RunPreservesInv(s, Flatten(segments));
  }

  /** The state an access finds. */
  lemma BeforeAccess(s: Gpt, segment: seq<Event>, noise: seq<Event>) returns (found: Gpt)
    requires Inv(s) && Between(noise, Foreground) && IsSegment(segment, noise, Foreground)
    ensures Inv(found) && found.fg == s.fg && Run(s, segment) == Step(found, ForegroundStep)
  {
    var lead := segment[..|segment| - 1];
    found := Run(s, lead);
    RunPreservesInv(s, lead);
    forall e | e in lead ensures IsBackground(e) {
      var i :| 0 <= i < |lead| && lead[i] == e;
      if i < |noise| {
        assert e == noise[i];
      }
    }
    BackgroundRun(s, lead);
  }

  /** The access that ends `stop` leaves everything the timer owns clear. */
  lemma StopEndsQuiet(s: Gpt, segment: seq<Event>, noise: seq<Event>)
    requires Inv(s) && Between(noise, Foreground) && IsSegment(segment, noise, Foreground)
    requires s.fg.Stopping? && !Run(s, segment).fg.Stopping?
    ensures var t := Run(s, segment); Inv(t) && Quiet(t) && !t.log.armed
  {
    var found := BeforeAccess(s, segment, noise);
    LastStopStep(found, ForegroundStep);
    StepPreservesInv(found, ForegroundStep);
  }

  predicate FreshEpoch(s: Gpt, ticks: u32, mode: Mode) {
    && s.log.armed && s.regs.running && s.nvic.enabled && Idle(s)
    && s.regs.mode == mode && s.regs.countdown == s.regs.reload == ticks - 1
    && Served(s) == s.log.timeouts == 0
  }

  /** The access that ends `arm` starts an epoch with nothing outstanding. */
  lemma ArmEndsClean(s: Gpt, segment: seq<Event>, noise: seq<Event>)
    requires Inv(s) && Between(noise, Foreground) && IsSegment(segment, noise, Foreground)
    requires s.fg.Arming? && Run(s, segment).fg.Outside?
    ensures var t := Run(s, segment); Inv(t) && FreshEpoch(t, s.fg.ticks, s.fg.newMode)
  {
    var found := BeforeAccess(s, segment, noise);
    StepPreservesInv(found, ForegroundStep);
  }

  /** Taking one access adds it to what preceded it. */
  lemma Close(s: Gpt, lead: seq<Event>, noise: seq<Event>, who: Actor) returns (segment: seq<Event>)
    requires IsLead(lead, noise, who)
    ensures IsSegment(segment, noise, who) && Run(s, segment) == Step(Run(s, lead), AccessEvent(who))
  {
    segment := lead + [AccessEvent(who)];
    assert segment[..|lead|] == lead;
  }

  /** What follows `stop`. */
  function Next(caller: Caller): TimerMachine.Foreground {
    if caller.Rearm? then Arming(WriteConfig, caller.ticks, caller.mode) else Outside
  }

  lemma CallAccepted(s: Gpt, microseconds: u32, mode: Mode)
    requires Inv(s) && s.fg.Outside? && s.isr.Inactive?
    ensures var t := Step(s, CallArm(microseconds, mode));
            if 1 <= microseconds <= 89_478_485
            then Inv(t) && t == s.(fg := Stopping(DisableNvic, Rearm(48 * microseconds, mode)))
            else t == s
  {
    ArmAcceptance(s, microseconds, mode);
    StepPreservesInv(s, CallArm(microseconds, mode));
  }

  class Timer {
    var hw: Gpt

    constructor (hw: Gpt)
      ensures this.hw == hw
    {
      this.hw := hw;
    }

    method Interrupts() returns (count: u32)
      ensures count == hw.log.count
    {
      count := hw.log.count;
    }

    /** The handler, if entered, runs to its return before the foreground goes on. */
    method LetIsrReturn() returns (ghost steps: seq<Event>)
      modifies this
      ensures hw == Run(old(hw), steps) && hw.isr.Inactive?
      ensures |steps| <= 3 && forall e <- steps :: e.IsrStep?
      ensures hw.fg == old(hw).fg && hw.log.armed == old(hw).log.armed
    {
      steps := [];
      while !hw.isr.Inactive?
        invariant hw == Run(old(hw), steps) && (forall e <- steps :: e.IsrStep?)
        invariant |steps| + IsrStepsLeft(hw.isr) <= 3
        invariant hw.fg == old(hw).fg && hw.log.armed == old(hw).log.armed
        decreases IsrStepsLeft(hw.isr)
      {
        assert (steps + [IsrStep])[..|steps|] == steps;
        steps := steps + [IsrStep];
        hw := IsrAdvance(hw);
      }
    }

    /** Let everything happen that precedes one access. */
    method Elapse(noise: seq<Event>, who: Actor) returns (ghost lead: seq<Event>)
      requires Between(noise, who) && (who.Handler? ==> !hw.isr.Inactive?)
      modifies this
      ensures hw == Run(old(hw), lead) && IsLead(lead, noise, who)
      ensures hw.fg == old(hw).fg && hw.log.armed == old(hw).log.armed
      ensures who.Foreground? ==> hw.isr.Inactive?
      ensures who.Handler? ==> hw.isr == old(hw).isr && hw.log == old(hw).log.(timeouts := hw.log.timeouts)
    {
      for i := 0 to |noise|
        invariant hw == Run(old(hw), noise[..i])
        invariant hw.fg == old(hw).fg && hw.log.armed == old(hw).log.armed
        invariant who.Handler? ==> hw.isr == old(hw).isr && hw.log == old(hw).log.(timeouts := hw.log.timeouts)
      {
        assert noise[..i + 1][..i] == noise[..i];
        BackgroundFrame(hw, noise[i]);
        if who.Handler? {
          HandlerFrame(hw, noise[i]);
        }
        hw := Step(hw, noise[i]);
      }
      assert noise[..|noise|] == noise;
      lead := noise;
      if who.Foreground? {
        ghost var steps := LetIsrReturn();
        RunConcat(old(hw), noise, steps);
        lead := noise + steps;
      }
    }

    // ---- One method for each register access, with whatever happens before it ----

    /** ICLR, by `stop` or by the handler. */
    method ClearLatch(noise: seq<Event>, who: Actor) returns (ghost segment: seq<Event>)
      requires Between(noise, who)
      requires if who.Handler? then hw.isr.AtClear? else hw.fg.Stopping? && hw.fg.stopPc.ClearLatch?
      modifies this
      ensures hw == Run(old(hw), segment) && IsSegment(segment, noise, who)
      ensures who.Handler? ==>
                hw.isr.AtSettle? && hw.fg == old(hw).fg && hw.log == old(hw).log.(timeouts := hw.log.timeouts)
      ensures who.Foreground? ==> hw.fg == old(hw).fg.(stopPc := TimerMachine.SettleLine)
    {
      ghost var lead := Elapse(noise, who);
      segment := Close(old(hw), lead, noise, who);
      hw := hw.(regs := hw.regs.(latch := false));
      if who.Handler? {
        hw := hw.(isr := AtSettle);
      } else {
        hw := hw.(fg := hw.fg.(stopPc := TimerMachine.SettleLine));
      }
    }

    /** The read of MIS and the two cycles after it: the line catches up. */
    method SettleLine(noise: seq<Event>, who: Actor) returns (ghost segment: seq<Event>)
      requires Between(noise, who)
      requires if who.Handler? then hw.isr.AtSettle? else hw.fg.Stopping? && hw.fg.stopPc.SettleLine?
      modifies this
      ensures hw == Run(old(hw), segment) && IsSegment(segment, noise, who)
      ensures who.Handler? ==>
                hw.isr.AtCount? && hw.fg == old(hw).fg && hw.log == old(hw).log.(timeouts := hw.log.timeouts)
      ensures who.Foreground? ==> hw.fg == old(hw).fg.(stopPc := TimerMachine.ClearPending)
    {
      ghost var lead := Elapse(noise, who);
      segment := Close(old(hw), lead, noise, who);
      hw := DriveLine(hw);
      if who.Handler? {
        hw := hw.(isr := AtCount);
      } else {
        hw := hw.(fg := hw.fg.(stopPc := TimerMachine.ClearPending));
      }
    }

    /** The atomic increment that ends the handler. */
    method CountAcknowledgement(noise: seq<Event>) returns (ghost segment: seq<Event>)
      requires hw.isr.AtCount? && Between(noise, Handler)
      modifies this
      ensures hw == Run(old(hw), segment) && IsSegment(segment, noise, Handler)
      ensures hw.isr.Inactive? && hw.fg == old(hw).fg
      ensures hw.log.count == Wrap(old(hw).log.count + 1) && hw.log.total == old(hw).log.total + 1
    {
      ghost var lead := Elapse(noise, Handler);
      segment := Close(old(hw), lead, noise, Handler);
      hw := hw.(log := hw.log.(count := Wrap(hw.log.count + 1), total := hw.log.total + 1), isr := Inactive);
    }

    /** ICER: the disable is issued. */
    method WriteDisable(noise: seq<Event>) returns (ghost segment: seq<Event>)
      requires hw.fg.Stopping? && hw.fg.stopPc.DisableNvic? && Between(noise, Foreground)
      modifies this
      ensures hw == Run(old(hw), segment) && IsSegment(segment, noise, Foreground)
      ensures hw.fg == old(hw).fg.(stopPc := Barrier)
    {
      ghost var lead := Elapse(noise, Foreground);
      segment := Close(old(hw), lead, noise, Foreground);
      hw := hw.(nvic := hw.nvic.(disabling := true), fg := hw.fg.(stopPc := Barrier));
    }

    /** DSB and ISB: it has taken effect. */
    method AwaitDisable(noise: seq<Event>) returns (ghost segment: seq<Event>)
      requires hw.fg.Stopping? && hw.fg.stopPc.Barrier? && Between(noise, Foreground)
      modifies this
      ensures hw == Run(old(hw), segment) && IsSegment(segment, noise, Foreground)
      ensures hw.fg == old(hw).fg.(stopPc := StopCounting)
    {
      ghost var lead := Elapse(noise, Foreground);
      segment := Close(old(hw), lead, noise, Foreground);
      hw := hw.(nvic := hw.nvic.(enabled := false, disabling := false), fg := hw.fg.(stopPc := StopCounting));
    }

    /** CTL: stop counting. */
    method WriteStop(noise: seq<Event>) returns (ghost segment: seq<Event>)
      requires hw.fg.Stopping? && hw.fg.stopPc.StopCounting? && Between(noise, Foreground)
      modifies this
      ensures hw == Run(old(hw), segment) && IsSegment(segment, noise, Foreground)
      ensures hw.fg == old(hw).fg.(stopPc := MaskSource)
    {
      ghost var lead := Elapse(noise, Foreground);
      segment := Close(old(hw), lead, noise, Foreground);
      hw := hw.(regs := hw.regs.(running := false), fg := hw.fg.(stopPc := MaskSource));
    }

    /** IMR: mask the timeout. */
    method WriteMask(noise: seq<Event>) returns (ghost segment: seq<Event>)
      requires hw.fg.Stopping? && hw.fg.stopPc.MaskSource? && Between(noise, Foreground)
      modifies this
      ensures hw == Run(old(hw), segment) && IsSegment(segment, noise, Foreground)
      ensures hw.fg == old(hw).fg.(stopPc := TimerMachine.ClearLatch)
    {
      ghost var lead := Elapse(noise, Foreground);
      segment := Close(old(hw), lead, noise, Foreground);
      hw := hw.(regs := hw.regs.(unmasked := false), fg := hw.fg.(stopPc := TimerMachine.ClearLatch));
    }

    /** ICPR: drop the request the NVIC may have latched. */
    method DiscardRequest(noise: seq<Event>) returns (ghost segment: seq<Event>)
      requires hw.fg.Stopping? && hw.fg.stopPc.ClearPending? && Between(noise, Foreground)
      modifies this
      ensures hw == Run(old(hw), segment) && IsSegment(segment, noise, Foreground)
      ensures hw.fg == Next(old(hw).fg.caller)
    {
      ghost var lead := Elapse(noise, Foreground);
      segment := Close(old(hw), lead, noise, Foreground);
      hw := hw.(nvic := hw.nvic.(pending := false), log := hw.log.(armed := false), fg := Next(hw.fg.caller));
    }

    /** CFG: concatenate the halves. */
    method WriteConfiguration(noise: seq<Event>) returns (ghost segment: seq<Event>)
      requires hw.fg.Arming? && hw.fg.armPc.WriteConfig? && Between(noise, Foreground)
      modifies this
      ensures hw == Run(old(hw), segment) && IsSegment(segment, noise, Foreground)
      ensures hw.fg == old(hw).fg.(armPc := WriteMode)
    {
      ghost var lead := Elapse(noise, Foreground);
      segment := Close(old(hw), lead, noise, Foreground);
      hw := hw.(fg := hw.fg.(armPc := WriteMode));
    }

    /** TAMR: the mode. */
    method WriteTimerMode(noise: seq<Event>) returns (ghost segment: seq<Event>)
      requires hw.fg.Arming? && hw.fg.armPc.WriteMode? && Between(noise, Foreground)
      modifies this
      ensures hw == Run(old(hw), segment) && IsSegment(segment, noise, Foreground)
      ensures hw.fg == old(hw).fg.(armPc := WriteReload)
    {
      ghost var lead := Elapse(noise, Foreground);
      segment := Close(old(hw), lead, noise, Foreground);
      hw := hw.(regs := hw.regs.(mode := hw.fg.newMode), fg := hw.fg.(armPc := WriteReload));
    }

    /** TAILR: the interval. */
    method WriteInterval(noise: seq<Event>) returns (ghost segment: seq<Event>)
      requires hw.fg.Arming? && hw.fg.armPc.WriteReload? && hw.fg.ticks > 0 && Between(noise, Foreground)
      modifies this
      ensures hw == Run(old(hw), segment) && IsSegment(segment, noise, Foreground)
      ensures hw.fg == old(hw).fg.(armPc := UnmaskSource)
    {
      ghost var lead := Elapse(noise, Foreground);
      segment := Close(old(hw), lead, noise, Foreground);
      hw := hw.(regs := hw.regs.(reload := hw.fg.ticks - 1), fg := hw.fg.(armPc := UnmaskSource));
    }

    /** IMR: unmask the timeout. */
    method WriteUnmask(noise: seq<Event>) returns (ghost segment: seq<Event>)
      requires hw.fg.Arming? && hw.fg.armPc.UnmaskSource? && Between(noise, Foreground)
      modifies this
      ensures hw == Run(old(hw), segment) && IsSegment(segment, noise, Foreground)
      ensures hw.fg == old(hw).fg.(armPc := EnableNvic)
    {
      ghost var lead := Elapse(noise, Foreground);
      segment := Close(old(hw), lead, noise, Foreground);
      hw := hw.(regs := hw.regs.(unmasked := true), fg := hw.fg.(armPc := EnableNvic));
    }

    /** ISER: enable the interrupt. */
    method WriteEnable(noise: seq<Event>) returns (ghost segment: seq<Event>)
      requires hw.fg.Arming? && hw.fg.armPc.EnableNvic? && Between(noise, Foreground)
      modifies this
      ensures hw == Run(old(hw), segment) && IsSegment(segment, noise, Foreground)
      ensures hw.fg == old(hw).fg.(armPc := EnableTimer)
    {
      ghost var lead := Elapse(noise, Foreground);
      segment := Close(old(hw), lead, noise, Foreground);
      hw := hw.(nvic := hw.nvic.(enabled := true), fg := hw.fg.(armPc := EnableTimer));
    }

    /** CTL: start counting, and with it an epoch. */
    method WriteStart(noise: seq<Event>) returns (ghost segment: seq<Event>)
      requires hw.fg.Arming? && hw.fg.armPc.EnableTimer? && Between(noise, Foreground)
      modifies this
      ensures hw == Run(old(hw), segment) && IsSegment(segment, noise, Foreground)
      ensures hw.fg.Outside?
    {
      ghost var lead := Elapse(noise, Foreground);
      segment := Close(old(hw), lead, noise, Foreground);
      hw := hw.(regs := hw.regs.(running := true, countdown := hw.regs.reload), fg := Outside,
                log := hw.log.(armed := true, timeouts := 0, base := hw.log.total));
    }

    // ---- The driver's own methods ----

    /** Clear the latch and let the line follow before the next access. `stop` and the handler share it. */
    method ClearTimeout(noise: seq<seq<Event>>, who: Actor) returns (ghost segments: seq<seq<Event>>)
      requires if who.Handler? then hw.isr.AtClear? else hw.fg.Stopping? && hw.fg.stopPc.ClearLatch?
      requires |noise| == 2 && AllBetween(noise, who)
      modifies this
      ensures hw == RunAll(old(hw), segments) && Woven(segments, noise, who)
      ensures who.Handler? ==>
                hw.isr.AtCount? && hw.fg == old(hw).fg && hw.log == old(hw).log.(timeouts := hw.log.timeouts)
      ensures who.Foreground? ==> hw.fg == old(hw).fg.(stopPc := TimerMachine.ClearPending)
    {
      segments := [];
      ghost var s0 := ClearLatch(noise[0], who);
      segments := Append(old(hw), segments, s0);
      ghost var s1 := SettleLine(noise[1], who);
      segments := Append(old(hw), segments, s1);
    }

    /** The interrupt handler: acknowledge at the source, then count. */
    method Interrupt(noise: seq<seq<Event>>) returns (ghost segments: seq<seq<Event>>)
      requires Inv(hw) && hw.isr.AtClear? && |noise| == 3 && AllBetween(noise, Handler)
      modifies this
      ensures hw == RunAll(old(hw), segments) && Woven(segments, noise, Handler)
      ensures Inv(hw) && hw.isr.Inactive? && hw.fg == old(hw).fg
      ensures hw.log.count == Wrap(old(hw).log.count + 1) && hw.log.total == old(hw).log.total + 1
    {
      segments := ClearTimeout(noise[..2], Handler);
      ghost var last := CountAcknowledgement(noise[2]);
      segments := Append(old(hw), segments, last);
      RunAllKeepsInv(old(hw), segments);
    }

    /** Disable the interrupt, stop counting and mask the source. */
    method Halt(noise: seq<seq<Event>>) returns (ghost segments: seq<seq<Event>>)
      requires hw.fg.Stopping? && hw.fg.stopPc.DisableNvic?
      requires |noise| == 4 && AllBetween(noise, Foreground)
      modifies this
      ensures hw == RunAll(old(hw), segments) && Woven(segments, noise, Foreground)
      ensures hw.fg == old(hw).fg.(stopPc := TimerMachine.ClearLatch)
    {
      segments := [];
      ghost var s0 := WriteDisable(noise[0]);
      segments := Append(old(hw), segments, s0);
      ghost var s1 := AwaitDisable(noise[1]);
      segments := Append(old(hw), segments, s1);
      ghost var s2 := WriteStop(noise[2]);
      segments := Append(old(hw), segments, s2);
      ghost var s3 := WriteMask(noise[3]);
      segments := Append(old(hw), segments, s3);
    }

    /** The seven accesses of `stop`, in order. */
    method StopAccesses(noise: seq<seq<Event>>) returns (ghost segments: seq<seq<Event>>)
      requires Inv(hw) && hw.fg.Stopping? && hw.fg.stopPc.DisableNvic?
      requires |noise| == 7 && AllBetween(noise, Foreground)
      modifies this
      ensures hw == RunAll(old(hw), segments) && Woven(segments, noise, Foreground)
      ensures Inv(hw) && Quiet(hw) && !hw.log.armed && hw.fg == Next(old(hw).fg.caller)
    {
      segments := Halt(noise[..4]);
      ghost var more := ClearTimeout(noise[4..6], Foreground);
      RunAllConcat(old(hw), segments, more);
      segments := segments + more;
      RunAllKeepsInv(old(hw), segments);
      ghost var before := hw;
      ghost var last := DiscardRequest(noise[6]);
      StopEndsQuiet(before, last, noise[6]);
      segments := Append(old(hw), segments, last);
    }

    /** Stop the timer and forget any request still outstanding: the seven accesses, each after whatever
        `noise` puts before it. */
    method Stop(noise: seq<seq<Event>>) returns (ghost segments: seq<seq<Event>>)
      requires Inv(hw) && hw.fg.Outside? && hw.isr.Inactive?
      requires |noise| == 7 && AllBetween(noise, Foreground)
      modifies this
      ensures hw == RunAll(Step(old(hw), CallStop), segments) && Woven(segments, noise, Foreground)
      ensures Inv(hw) && hw.fg.Outside? && Quiet(hw) && !hw.log.armed
    {
      StepPreservesInv(hw, CallStop);
      hw := hw.(fg := Stopping(DisableNvic, Client));
      segments := StopAccesses(noise);
    }

    /** Write the configuration, the mode and the interval, and let the timeout through. */
    method Program(noise: seq<seq<Event>>) returns (ghost segments: seq<seq<Event>>)
      requires hw.fg.Arming? && hw.fg.armPc.WriteConfig? && hw.fg.ticks > 0
      requires |noise| == 5 && AllBetween(noise, Foreground)
      modifies this
      ensures hw == RunAll(old(hw), segments) && Woven(segments, noise, Foreground)
      ensures hw.fg == old(hw).fg.(armPc := EnableTimer)
    {
      segments := [];
      ghost var s0 := WriteConfiguration(noise[0]);
      segments := Append(old(hw), segments, s0);
      ghost var s1 := WriteTimerMode(noise[1]);
      segments := Append(old(hw), segments, s1);
      ghost var s2 := WriteInterval(noise[2]);
      segments := Append(old(hw), segments, s2);
      ghost var s3 := WriteUnmask(noise[3]);
      segments := Append(old(hw), segments, s3);
      ghost var s4 := WriteEnable(noise[4]);
      segments := Append(old(hw), segments, s4);
    }

    /** The six accesses of `arm` after its `stop`; the last one starts the timer. */
    method ArmAccesses(noise: seq<seq<Event>>) returns (ghost segments: seq<seq<Event>>)
      requires Inv(hw) && hw.fg.Arming? && hw.fg.armPc.WriteConfig?
      requires |noise| == 6 && AllBetween(noise, Foreground)
      modifies this
      ensures hw == RunAll(old(hw), segments) && Woven(segments, noise, Foreground)
      ensures Inv(hw) && hw.fg.Outside? && FreshEpoch(hw, old(hw).fg.ticks, old(hw).fg.newMode)
    {
      segments := Program(noise[..5]);
      RunAllKeepsInv(old(hw), segments);
      ghost var before := hw;
      ghost var last := WriteStart(noise[5]);
      ArmEndsClean(before, last, noise[5]);
      segments := Append(old(hw), segments, last);
    }

    /** Stop, reprogram and enable. */
    method Reprogram(noise: seq<seq<Event>>) returns (ghost segments: seq<seq<Event>>)
      requires Inv(hw) && hw.fg.Stopping? && hw.fg.stopPc.DisableNvic? && hw.fg.caller.Rearm?
      requires |noise| == 13 && AllBetween(noise, Foreground)
      modifies this
      ensures hw == RunAll(old(hw), segments) && Woven(segments, noise, Foreground)
      ensures Inv(hw) && hw.fg.Outside? && FreshEpoch(hw, old(hw).fg.caller.ticks, old(hw).fg.caller.mode)
    {
      segments := StopAccesses(noise[..7]);
      ghost var more := ArmAccesses(noise[7..]);
      RunAllConcat(old(hw), segments, more);
      segments := segments + more;
    }

    /** Thirteen accesses; a zero or overflowing interval is refused before any. */
    method Arm(microseconds: u32, mode: Mode, noise: seq<seq<Event>>)
      returns (ok: bool, ghost segments: seq<seq<Event>>)
      requires Inv(hw) && hw.fg.Outside? && hw.isr.Inactive?
      requires |noise| == 13 && AllBetween(noise, Foreground)
      modifies this
      ensures ok <==> 1 <= microseconds <= 89_478_485
      ensures !ok ==> hw == old(hw) == Step(old(hw), CallArm(microseconds, mode))
      ensures ok ==> hw == RunAll(Step(old(hw), CallArm(microseconds, mode)), segments)
                     && Woven(segments, noise, Foreground)
      ensures Inv(hw) && hw.fg.Outside?
      ensures ok ==> FreshEpoch(hw, 48 * microseconds, mode)
    {
      CallAccepted(hw, microseconds, mode);
      var ticks := TicksFromUs(microseconds);
      if ticks.None? || ticks.value == 0 {
        return false, [];
      }
      hw := hw.(fg := Stopping(DisableNvic, Rearm(ticks.value, mode)));
      segments := Reprogram(noise);
      ok := true;
    }
  }
}
