/** How many timeouts an armed timer produces: the tick count in closed form. */
module TimerTicks {
  import opened Arithmetic
  import opened Word32
  import opened TimerMachine
  import opened TimerProtocol

  function CountTicks(events: seq<Event>): nat
    decreases |events|
  {
    if events == [] then 0
    else CountTicks(events[..|events| - 1]) + if events[|events| - 1].Tick? then 1 else 0
  }

  /** What `n` ticks after enabling with `period = reload + 1` must have produced. */
  function ExpectedTimeouts(n: nat, period: nat, mode: Mode): nat
    requires period > 0
  {
    if mode.Periodic? then n / period else if n < period then 0 else 1
  }

  /** The ticks so far, as whole periods already timed out plus progress through the current one. */
  predicate Progress(s: Gpt, n: nat, period: nat, mode: Mode) {
    && s.log.armed && s.fg.Outside? && s.regs.mode == mode && s.regs.reload == period - 1
    && if mode.Periodic?
       then s.regs.running && 0 <= s.regs.countdown < period
            && n == s.log.timeouts * period + (period - 1 - s.regs.countdown)
       else if s.regs.running
       then s.log.timeouts == 0 && s.regs.countdown < period && n == period - 1 - s.regs.countdown
       else s.log.timeouts == 1 && n >= period
  }

  lemma ProgressTick(s: Gpt, n: nat, period: nat, mode: Mode)
    requires Progress(s, n, period, mode)
    ensures Progress(CountDown(s), n + 1, period, mode)
  {
    if s.regs.running && s.regs.countdown == 0 {
      if mode.Periodic? {
        assert (s.log.timeouts + 1) * period == s.log.timeouts * period + period;
      } else {
      }
    } else if s.regs.running {
      assert CountDown(s) == s.(regs := s.regs.(countdown := s.regs.countdown - 1));
    }
  }

  lemma ProgressStep(s: Gpt, e: Event, n: nat, period: nat, mode: Mode)
    requires Progress(s, n, period, mode) && !EndsEpoch(e)
    ensures Progress(Step(s, e), n + if e.Tick? then 1 else 0, period, mode)
  {
    EpochFrame(s, e);
    if e.Tick? {
      ProgressTick(s, n, period, mode);
    }
  }

  lemma {:induction false} ProgressRun(s: Gpt, events: seq<Event>, period: nat, mode: Mode)
    requires Progress(s, 0, period, mode) && WithinEpoch(events)
    ensures Progress(Run(s, events), CountTicks(events), period, mode)
    decreases |events|
  {
    if events == [] {
    } else {
      var last := |events| - 1;
      ProgressRun(s, events[..last], period, mode);
      ProgressStep(Run(s, events[..last]), events[last], CountTicks(events[..last]), period, mode);
    }
  }

  /** The interval and mode carried by an accepted `arm` until it returns. */
  predicate Configuring(s: Gpt, ticks: u32, mode: Mode) {
    match s.fg
    case Outside => false
    case Stopping(_, caller) => caller == Rearm(ticks, mode)
    case Arming(_, t, m) => t == ticks && m == mode
  }

  lemma ConfiguringStep(s: Gpt, e: Event, ticks: u32, mode: Mode)
    requires Inv(s) && Configuring(s, ticks, mode)
    ensures var t := Step(s, e);
            Configuring(t, ticks, mode) || Progress(t, 0, ticks, mode)
  {
    if IsBackground(e) {
      BackgroundFrame(s, e);
    }
  }

  lemma {:induction false} ConfiguringRun(s: Gpt, events: seq<Event>, ticks: u32, mode: Mode)
    requires Inv(s) && Configuring(s, ticks, mode)
    requires forall k | 0 <= k < |events| :: !Run(s, events[..k]).fg.Outside?
    ensures var t := Run(s, events);
            Inv(t) && (Configuring(t, ticks, mode) || Progress(t, 0, ticks, mode))
    decreases |events|
  {
    if events == [] {
    } else {
      var last := |events| - 1;
      forall k | 0 <= k < last ensures !Run(s, events[..last][..k]).fg.Outside? {
        assert events[..last][..k] == events[..k];
      }
      ConfiguringRun(s, events[..last], ticks, mode);
      ConfiguringStep(Run(s, events[..last]), events[last], ticks, mode);
      StepPreservesInv(Run(s, events[..last]), events[last]);
    }
  }

  function AfterArm(s: Gpt, us: u32, mode: Mode, during: seq<Event>): Gpt {
    Run(Step(s, CallArm(us, mode)), during)
  }

  /** `during` is one whole accepted `arm` call, from its entry to its return. */
  ghost predicate ArmReturns(s: Gpt, us: u32, mode: Mode, during: seq<Event>) {
    && 1 <= us <= 89_478_485 && s.fg.Outside? && s.isr.Inactive?
    && (forall k | 0 <= k < |during| :: !AfterArm(s, us, mode, during[..k]).fg.Outside?)
    && AfterArm(s, us, mode, during).fg.Outside?
  }

  lemma CallConfigures(s: Gpt, us: u32, mode: Mode) returns (called: Gpt)
    requires Inv(s) && s.fg.Outside? && s.isr.Inactive? && 1 <= us <= 89_478_485
    ensures called == Step(s, CallArm(us, mode)) && Inv(called) && Configuring(called, 48 * us, mode)
    ensures called.log.armed == s.log.armed && called.log.total == s.log.total
  {
    ArmAcceptance(s, us, mode);
    StepPreservesInv(s, CallArm(us, mode));
    called := Step(s, CallArm(us, mode));
  }

  lemma ArmedOnlyByEnable(s: Gpt, e: Event)
    requires !s.log.armed && !s.fg.Outside?
    ensures var t := Step(s, e);
            t.log.armed ==> s.fg.Arming? && s.fg.armPc.EnableTimer? && t == ArmAdvance(s)
  {
    if IsBackground(e) {
      BackgroundFrame(s, e);
    }
  }

  lemma ConfiguringStoppedStep(s: Gpt, e: Event, ticks: u32, mode: Mode)
    requires Inv(s) && Configuring(s, ticks, mode) && !s.log.armed
    ensures var t := Step(s, e);
            && Inv(t) && t.log.total == s.log.total
            && (if t.fg.Outside? then t.log.base == s.log.total && Progress(t, 0, ticks, mode)
                else !t.log.armed && Configuring(t, ticks, mode))
  {
    ReconfiguringStep(s, e);
    ConfiguringStep(s, e, ticks, mode);
    StepPreservesInv(s, e);
    ArmedOnlyByEnable(s, e);
  }

  lemma {:induction false} ConfiguringStoppedRun(s: Gpt, events: seq<Event>, ticks: u32, mode: Mode)
    requires Inv(s) && Configuring(s, ticks, mode) && !s.log.armed
    requires forall k | 0 <= k < |events| :: !Run(s, events[..k]).fg.Outside?
    ensures var t := Run(s, events);
            && Inv(t) && t.log.total == s.log.total
            && (if t.fg.Outside? then t.log.base == s.log.total && Progress(t, 0, ticks, mode)
                else !t.log.armed && Configuring(t, ticks, mode))
    decreases |events|
  {
    if events == [] {
    } else {
      var last := |events| - 1;
      var prefix := events[..last];
      forall k | 0 <= k < last ensures !Run(s, prefix[..k]).fg.Outside? {
        assert prefix[..k] == events[..k];
      }
      ConfiguringStoppedRun(s, prefix, ticks, mode);
      assert !Run(s, prefix).fg.Outside?;
      ConfiguringStoppedStep(Run(s, prefix), events[last], ticks, mode);
    }
  }

  lemma ArmStartsProgress(s: Gpt, us: u32, mode: Mode, during: seq<Event>)
    requires Inv(s) && ArmReturns(s, us, mode, during)
    ensures var t := AfterArm(s, us, mode, during);
            && Inv(t) && Progress(t, 0, 48 * us, mode)
            && (!s.log.armed ==> t.log.base == s.log.total)
  {
    var called := CallConfigures(s, us, mode);
    forall k | 0 <= k < |during| ensures !Run(called, during[..k]).fg.Outside? {
      assert !AfterArm(s, us, mode, during[..k]).fg.Outside?;
    }
    ConfiguringRun(called, during, 48 * us, mode);
    if !s.log.armed {
      ConfiguringStoppedRun(called, during, 48 * us, mode);
    }
  }

  lemma EpochTimeouts(s: Gpt, us: u32, mode: Mode, during: seq<Event>, after: seq<Event>)
    requires Inv(s) && ArmReturns(s, us, mode, during) && WithinEpoch(after)
    ensures var t := Run(AfterArm(s, us, mode, during), after);
            && Inv(t)
            && t.log.timeouts == ExpectedTimeouts(CountTicks(after), 48 * us, mode)
            && 0 <= Served(t) <= t.log.timeouts
            && t.regs.reload < MODULUS
            && (mode.OneShot? ==> t.regs.running == (t.log.timeouts == 0))
  {
    ArmStartsProgress(s, us, mode, during);
    var enabled := AfterArm(s, us, mode, during);
    ProgressRun(enabled, after, 48 * us, mode);
    RunPreservesInv(enabled, after);
    var t := Run(enabled, after);
    if mode.Periodic? {
      QuotientOf(CountTicks(after), t.log.timeouts, 48 * us - 1 - t.regs.countdown, 48 * us);
    }
  }

  /** From a successful `arm` of `us` microseconds to its return, and then while the epoch lasts, under every
      interleaving of ticks, line, NVIC and ISR steps, mask changes and refused requests: `n` ticks after
      enabling there have been floor(n / (48 * us)) periodic timeouts, or that capped at one for a one-shot;
      completions never exceed it. */
  lemma TimeoutsAfterArm(s: Gpt, before: seq<Event>, us: u32, mode: Mode, during: seq<Event>, after: seq<Event>)
    requires Boot(s) && ArmReturns(Run(s, before), us, mode, during) && WithinEpoch(after)
    ensures var t := Run(AfterArm(Run(s, before), us, mode, during), after);
            var n := CountTicks(after);
            && t.log.timeouts == ExpectedTimeouts(n, 48 * us, mode)
            && 0 <= Served(t) <= t.log.timeouts
            && t.regs.reload < MODULUS
  {
    RunPreservesInv(s, before);
    EpochTimeouts(Run(s, before), us, mode, during, after);
  }

  /** A timeout about to fire on a latch still set from the one before: the two become one request. */
  predicate Collides(s: Gpt) {
    s.regs.running && s.regs.countdown == 0 && s.regs.latch
  }

  function Coalesced(s: Gpt, events: seq<Event>): nat
    decreases |events|
  {
    if events == [] then 0
    else
      var last := |events| - 1;
      Coalesced(s, events[..last]) + if events[last].Tick? && Collides(Run(s, events[..last])) then 1 else 0
  }

  lemma ConservationStep(s: Gpt, e: Event)
    requires Inv(s) && s.log.armed && s.fg.Outside? && !EndsEpoch(e)
    ensures var t := Step(s, e);
            Claimed(t) - t.log.timeouts == Claimed(s) - s.log.timeouts - if e.Tick? && Collides(s) then 1 else 0
  {
    assert Live(s);
    EpochFrame(s, e);
  }

  lemma {:induction false} ConservationRun(s: Gpt, events: seq<Event>)
    requires Inv(s) && s.log.armed && s.fg.Outside? && WithinEpoch(events)
    ensures var t := Run(s, events);
            Claimed(t) - t.log.timeouts == Claimed(s) - s.log.timeouts - Coalesced(s, events)
    decreases |events|
  {
    if events == [] {
    } else {
      var last := |events| - 1;
      ConservationRun(s, events[..last]);
      EpochRun(s, events[..last]);
      ConservationStep(Run(s, events[..last]), events[last]);
    }
  }

  lemma ProgressZero(s: Gpt, period: nat, mode: Mode)
    requires period > 0 && Progress(s, 0, period, mode)
    ensures s.log.timeouts == 0
  {
    if mode.Periodic? && s.log.timeouts > 0 {
      ProductOrder(1, s.log.timeouts, period);
    }
  }

  lemma AccountOf(enabled: Gpt, after: seq<Event>, us: u32, mode: Mode)
    requires Inv(enabled) && us > 0 && Progress(enabled, 0, 48 * us, mode) && WithinEpoch(after)
    ensures enabled.log.timeouts == Owed(enabled) == 0
    ensures mode.OneShot? ==> Coalesced(enabled, after) == 0
  {
    assert Live(enabled);
    ProgressZero(enabled, 48 * us, mode);
    if mode.OneShot? {
      var t := Run(enabled, after);
      RunPreservesInv(enabled, after);
      EpochRun(enabled, after);
      ProgressRun(enabled, after, 48 * us, mode);
      assert Live(t);
      ConservationRun(enabled, after);
    }
  }

  lemma EpochAccount(s: Gpt, us: u32, mode: Mode, during: seq<Event>, after: seq<Event>)
    requires Inv(s) && ArmReturns(s, us, mode, during) && WithinEpoch(after)
    ensures var enabled := AfterArm(s, us, mode, during);
            var t := Run(enabled, after);
            && Inv(t) && Claimed(t) + Coalesced(enabled, after)
                         == enabled.log.total + ExpectedTimeouts(CountTicks(after), 48 * us, mode)
            && (mode.OneShot? ==> Coalesced(enabled, after) == 0)
            && (!s.log.armed ==> enabled.log.total == s.log.total)
  {
    ArmStartsProgress(s, us, mode, during);
    var enabled := AfterArm(s, us, mode, during);
    EpochTimeouts(s, us, mode, during, after);
    AccountOf(enabled, after, us, mode);
    ConservationRun(enabled, after);
  }

  /** The exact account of an epoch: every timeout its ticks produced has been counted, is still owed, or fell
      on a latch not yet cleared. A one-shot never loses its timeout that way. */
  lemma EveryTimeoutAccounted(s: Gpt, before: seq<Event>, us: u32, mode: Mode, during: seq<Event>, after: seq<Event>)
    requires Boot(s) && ArmReturns(Run(s, before), us, mode, during) && WithinEpoch(after)
    ensures var enabled := AfterArm(Run(s, before), us, mode, during);
            var t := Run(enabled, after);
            && t.log.total + Owed(t) + Coalesced(enabled, after)
               == enabled.log.total + ExpectedTimeouts(CountTicks(after), 48 * us, mode)
            && (mode.OneShot? ==> Coalesced(enabled, after) == 0)
  {
    RunPreservesInv(s, before);
    EpochAccount(Run(s, before), us, mode, during, after);
  }

  lemma OwedIsSmall(total: int, owed: nat)
    requires owed <= 2
    ensures Wrap(total - owed) == Wrap(total) <==> owed == 0
    ensures Wrap(total - owed) == Wrap(total - 1) <==> owed == 1
  {
    WrappingSubOfReadings(total, total - owed);
    WrappingSubOfReadings(total - 1, total - owed);
  }

  /** A one-shot armed on a stopped timer, once its interval is over: the count stands one higher exactly when
      the timeout is not still latched or in service. */
  lemma OneShotOnStopped(s: Gpt, us: u32, during: seq<Event>, after: seq<Event>)
    requires Inv(s) && !s.log.armed && ArmReturns(s, us, OneShot, during)
    requires WithinEpoch(after) && CountTicks(after) >= 48 * us
    ensures var t := Run(AfterArm(s, us, OneShot, during), after);
            && (t.log.count == Wrap(s.log.count + 1) <==> Owed(t) == 0)
            && (t.log.count == s.log.count <==> Owed(t) == 1)
            && !t.regs.running
  {
    EpochTimeouts(s, us, OneShot, during, after);
    EpochAccount(s, us, OneShot, during, after);
    var t := Run(AfterArm(s, us, OneShot, during), after);
    assert Claimed(t) == s.log.total + 1;
    WrapIncrement(s.log.total);
    OwedIsSmall(s.log.total + 1, Owed(t));
  }

  /** The bring-up check that a one-shot armed on a stopped timer raises `interrupts()` by exactly one, in
      every run that waits out the interval: it holds exactly when nothing is still owed. */
  lemma OneShotRaisesCountByOne(s: Gpt, before: seq<Event>, us: u32, during: seq<Event>, after: seq<Event>)
    requires Boot(s) && !Run(s, before).log.armed && ArmReturns(Run(s, before), us, OneShot, during)
    requires WithinEpoch(after) && CountTicks(after) >= 48 * us
    ensures var t := Run(AfterArm(Run(s, before), us, OneShot, during), after);
            && (t.log.count == Wrap(Run(s, before).log.count + 1) <==> Owed(t) == 0)
            && (t.log.count == Run(s, before).log.count <==> Owed(t) == 1)
            && (Idle(t) ==> Owed(t) == 0) && !t.regs.running
  {
    RunPreservesInv(s, before);
    OneShotOnStopped(Run(s, before), us, during, after);
  }
}
