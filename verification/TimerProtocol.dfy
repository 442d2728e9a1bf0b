/** What the interleaved timer guarantees over every run from construction. */
module TimerProtocol {
  import opened Word32
  import opened TimerMachine

  predicate Accepts(e: Event)
    requires e.CallArm?
  {
    var ticks := TicksFromUs(e.microseconds);
    ticks.Some? && ticks.value != 0
  }

  /** An event of the counting hardware, the line, the NVIC or the ISR; the driver is not entered. */
  predicate IsBackground(e: Event) {
    !e.ForegroundStep? && !e.SetMask? && !e.CallStop? && !e.CallArm?
  }

  predicate Background(events: seq<Event>) {
    forall e <- events :: IsBackground(e)
  }

  lemma BackgroundFrame(s: Gpt, e: Event)
    requires IsBackground(e)
    ensures var t := Step(s, e);
            && t.fg == s.fg && t.primask == s.primask
            && t.log.armed == s.log.armed && t.log.base == s.log.base
            && t.regs.mode == s.regs.mode && t.regs.reload == s.regs.reload
            && (!e.Tick? ==> t.regs == s.regs.(latch := t.regs.latch) && t.log.timeouts == s.log.timeouts)
  {}

  /** The client stops the timer or replaces its interval. A refused request does neither. */
  predicate EndsEpoch(e: Event) {
    e.CallStop? || (e.CallArm? && Accepts(e))
  }

  predicate WithinEpoch(events: seq<Event>) {
    forall e <- events :: !EndsEpoch(e)
  }

  lemma EpochFrame(s: Gpt, e: Event)
    requires s.fg.Outside? && !EndsEpoch(e)
    ensures var t := Step(s, e);
            && t.fg.Outside? && t.log.armed == s.log.armed && t.log.base == s.log.base
            && t.regs.mode == s.regs.mode && t.regs.reload == s.regs.reload
            && (!e.Tick? ==> t.regs == s.regs.(latch := t.regs.latch) && t.log.timeouts == s.log.timeouts)
            && (!IsBackground(e) ==> t == s.(primask := t.primask))
  {
    if IsBackground(e) {
      BackgroundFrame(s, e);
    }
  }

  /** No `arm` with an acceptable interval. */
  predicate NeverArms(events: seq<Event>) {
    forall e <- events :: e.CallArm? ==> !Accepts(e)
  }

  lemma {:induction false} RunConcat(s: Gpt, first: seq<Event>, second: seq<Event>)
    ensures Run(Run(s, first), second) == Run(s, first + second)
    decreases |second|
  {
    if second == [] {
      assert first + second == first;
    } else {
      var last := |second| - 1;
      RunConcat(s, first, second[..last]);
      assert (first + second)[..|first + second| - 1] == first + second[..last];
    }
  }

  lemma RunFirst(s: Gpt, e: Event, rest: seq<Event>)
    ensures Run(s, [e] + rest) == Run(Step(s, e), rest)
  {
    RunConcat(s, [e], rest);
    assert [e][..0] == [];
  }

  /** `arm` accepts exactly the intervals from 1 to 89,478,485 microseconds. */
  lemma ArmAcceptance(s: Gpt, microseconds: u32, mode: Mode)
    requires s.fg.Outside? && s.isr.Inactive?
    ensures var t := Step(s, CallArm(microseconds, mode));
            if 1 <= microseconds <= 89_478_485
            then t == s.(fg := Stopping(DisableNvic, Rearm(48 * microseconds, mode)))
            else t == s
  {}

  lemma LastStopStep(s: Gpt, e: Event)
    requires Inv(s) && s.fg.Stopping? && !Step(s, e).fg.Stopping?
    ensures var t := Step(s, e); Quiet(t) && !t.log.armed && t.log.total == s.log.total
  {
    if IsBackground(e) {
      BackgroundFrame(s, e);
    }
  }

  /** However `stop` interleaves with the hardware, and whoever called it, when it returns everything it owns
      is clear. */
  lemma StopReturnsQuiet(s: Gpt, events: seq<Event>, e: Event)
    requires Boot(s)
    requires Run(s, events).fg.Stopping? && !Step(Run(s, events), e).fg.Stopping?
    ensures var t := Step(Run(s, events), e);
            Quiet(t) && !t.log.armed && t.log.total == Run(s, events).log.total
  {
    RunPreservesInv(s, events);
    LastStopStep(Run(s, events), e);
  }

  lemma ReconfiguringStep(s: Gpt, e: Event)
    requires s.isr.Inactive? && (s.nvic.pending ==> !s.nvic.enabled) && !s.fg.Outside?
    ensures var t := Step(s, e);
            t.log.total == s.log.total && t.log.count == s.log.count && t.isr.Inactive?
  {}

  /** From the barrier in `stop` to the enable write in `arm`, no acknowledgement is counted. */
  lemma NoServiceWhileReconfiguring(s: Gpt, events: seq<Event>, e: Event)
    requires Boot(s)
    requires var t := Run(s, events);
             t.fg.Arming? || (t.fg.Stopping? && StopRank(t.fg.stopPc) >= 2)
    ensures var t := Run(s, events);
            Step(t, e).log.total == t.log.total && Step(t, e).log.count == t.log.count && Step(t, e).isr.Inactive?
  {
    RunPreservesInv(s, events);
    ReconfiguringStep(Run(s, events), e);
  }

  predicate Dormant(s: Gpt) {
    Quiet(s) && !s.fg.Arming? && (s.fg.Stopping? ==> s.fg.caller.Client?)
  }

  lemma DormantStep(s: Gpt, e: Event)
    requires Dormant(s) && (e.CallArm? ==> !Accepts(e))
    ensures var t := Step(s, e); Dormant(t) && t.log.count == s.log.count && t.log.total == s.log.total
  {}

  lemma {:induction false} DormantRun(s: Gpt, events: seq<Event>)
    requires Dormant(s) && NeverArms(events)
    ensures var t := Run(s, events); Dormant(t) && t.log.count == s.log.count && t.log.total == s.log.total
    decreases |events|
  {
    if events == [] {
    } else {
      var last := |events| - 1;
      DormantRun(s, events[..last]);
      DormantStep(Run(s, events[..last]), events[last]);
    }
  }

  /** A stopped timer stays clear, and its count unchanged, until the next successful `arm`. */
  lemma CountFrozenUntilArm(s: Gpt, before: seq<Event>, after: seq<Event>)
    requires Boot(s)
    requires Run(s, before).fg.Outside? && !Run(s, before).log.armed
    requires NeverArms(after)
    ensures var stopped, later := Run(s, before), Run(s, before + after);
            Quiet(later) && later.log.count == stopped.log.count && later.log.total == stopped.log.total
  {
    RunPreservesInv(s, before);
    DormantRun(Run(s, before), after);
    RunConcat(s, before, after);
  }

  /** `interrupts()` is the number of completions since reset modulo 2^32, and the current epoch never
      has more completions than hardware timeouts, so none is inherited and none counted twice. */
  lemma Accounting(s: Gpt, events: seq<Event>)
    requires Boot(s)
    ensures var t := Run(s, events);
            && t.log.count == Wrap(t.log.total)
            && 0 <= Served(t) <= t.log.timeouts
  {
    RunPreservesInv(s, events);
  }

  /** An epoch starts with nothing outstanding and nothing yet counted against it. */
  lemma EpochStartsClean(s: Gpt, events: seq<Event>, e: Event)
    requires Boot(s)
    requires Run(s, events).fg.Arming? && Step(Run(s, events), e).fg.Outside?
    ensures var call, t := Run(s, events).fg, Step(Run(s, events), e);
            && t.log.armed && t.regs.running && t.nvic.enabled && Idle(t)
            && t.regs.mode == call.newMode && t.regs.countdown == t.regs.reload == call.ticks - 1
            && Served(t) == t.log.timeouts == 0
  {
    RunPreservesInv(s, events);
  }

  lemma OneShotCount(s: Gpt)
    requires Inv(s) && s.regs.mode.OneShot? && s.log.armed && s.fg.Outside? && Idle(s)
    ensures s.log.total == s.log.base + if s.regs.running then 0 else 1
    ensures s.log.count == Wrap(Wrap(s.log.base) + if s.regs.running then 0 else 1)
  {
    assert Owed(s) == 0 && Served(s) == s.log.timeouts;
    if !s.regs.running {
      WrapIncrement(s.log.base);
    }
  }

  /** A one-shot epoch completes its ISR at most once, and exactly once by the time nothing is outstanding. */
  lemma OneShotExactlyOnce(s: Gpt, events: seq<Event>)
    requires Boot(s)
    requires Run(s, events).regs.mode.OneShot? && !Run(s, events).fg.Arming?
    ensures var t := Run(s, events);
            && Served(t) <= 1
            && (t.log.armed && t.fg.Outside? && Idle(t) ==>
                  t.log.count == Wrap(Wrap(t.log.base) + if t.regs.running then 0 else 1))
  {
    var t := Run(s, events);
    RunPreservesInv(s, events);
    assert CountInv(t);
    if t.log.armed && t.fg.Outside? && Idle(t) {
      OneShotCount(t);
    }
  }

  /** Completions made or still owed. */
  function Claimed(s: Gpt): int {
    s.log.total + Owed(s)
  }

  lemma EpochStep(s: Gpt, e: Event)
    requires Inv(s) && s.log.armed && s.fg.Outside? && !EndsEpoch(e)
    ensures var t := Step(s, e);
            && t.log.armed && t.fg.Outside? && t.log.base == s.log.base && Claimed(t) >= Claimed(s)
  {
    EpochFrame(s, e);
  }

  lemma {:induction false} EpochRun(s: Gpt, events: seq<Event>)
    requires Inv(s) && s.log.armed && s.fg.Outside? && WithinEpoch(events)
    ensures var t := Run(s, events);
            && Inv(t) && t.log.armed && t.fg.Outside? && t.log.base == s.log.base && Claimed(t) >= Claimed(s)
    decreases |events|
  {
    if events == [] {
    } else {
      var last := |events| - 1;
      EpochRun(s, events[..last]);
      StepPreservesInv(Run(s, events[..last]), events[last]);
      EpochStep(Run(s, events[..last]), events[last]);
    }
  }

  /** Once a timeout is latched or in service, no quiescent state of the epoch is reached without counting it,
      whatever is masked, unmasked or refused meanwhile. */
  lemma NoTimeoutLost(s: Gpt, events: seq<Event>, later: seq<Event>)
    requires Boot(s)
    requires Run(s, events).log.armed && Run(s, events).fg.Outside? && WithinEpoch(later)
    requires Owed(Run(s, events)) > 0 && Idle(Run(s, events + later))
    ensures Run(s, events + later).log.total > Run(s, events).log.total
  {
    RunPreservesInv(s, events);
    EpochRun(Run(s, events), later);
    RunConcat(s, events, later);
  }

  // ---- Draining: what the line, the NVIC and the ISR do once the timer has ticked for the last time ----

  predicate IsService(e: Event) {
    IsBackground(e) && !e.Tick?
  }

  predicate Service(events: seq<Event>) {
    forall e <- events :: IsService(e)
  }

  /** ISR steps left, the fall of a line whose latch is clear, and for each latched timeout its request, the
      ISR's entry and three steps, and that fall. */
  function Outstanding(s: Gpt): nat {
    var isr := match s.isr case Inactive => 0 case AtClear => 4 case AtSettle => 2 case AtCount => 1;
    var latched := s.regs.latch && !s.isr.AtClear?;
    isr + (if latched then (if s.nvic.pending then 5 else 6)
           else if s.nvic.line && !s.isr.AtClear? then 1 else 0)
  }

  /** A service step does nothing or brings quiescence nearer, and loses no completion. */
  lemma ServiceStep(s: Gpt, e: Event)
    requires Inv(s) && s.log.armed && s.fg.Outside? && IsService(e)
    ensures var t := Step(s, e);
            && t.log.armed && t.fg.Outside? && t.primask == s.primask
            && (t == s || Outstanding(t) < Outstanding(s))
            && Claimed(t) == Claimed(s) && t.log.timeouts == s.log.timeouts
  {
    BackgroundFrame(s, e);
    assert Live(s);
  }

  /** No service step changes anything. */
  ghost predicate Still(s: Gpt) {
    forall e: Event :: IsService(e) ==> Step(s, e) == s
  }

  /** Unmasked, a timer with anything outstanding has a service step to make. */
  lemma NextService(s: Gpt) returns (e: Event)
    requires Inv(s) && s.log.armed && s.fg.Outside? && !s.primask && !Idle(s)
    ensures IsService(e) && Step(s, e) != s
  {
    assert Live(s) && s.nvic.enabled;
    if !s.isr.Inactive? {
      return IsrStep;
    }
    if s.nvic.pending {
      return EnterIsr;
    }
    e := if s.nvic.line then Pend else Propagate;
  }

  lemma StillMeansIdle(s: Gpt)
    requires Inv(s) && s.log.armed && s.fg.Outside? && !s.primask
    ensures Still(s) <==> Idle(s)
  {
    if !Idle(s) {
      var e := NextService(s);
      assert IsService(e) && Step(s, e) != s;
    }
  }

  /** Every event changes the state it finds. */
  ghost predicate Effective(s: Gpt, events: seq<Event>) {
    forall k | 0 <= k < |events| :: Step(Run(s, events[..k]), events[k]) != Run(s, events[..k])
  }

  lemma {:induction false} ServiceRun(s: Gpt, events: seq<Event>)
    requires Inv(s) && s.log.armed && s.fg.Outside? && Service(events) && Effective(s, events)
    ensures var t := Run(s, events);
            && Inv(t) && t.log.armed && t.fg.Outside? && t.primask == s.primask
            && Claimed(t) == Claimed(s) && t.log.timeouts == s.log.timeouts
            && |events| + Outstanding(t) <= Outstanding(s)
    decreases |events|
  {
    if events == [] {
    } else {
      var last := |events| - 1;
      var before := events[..last];
      forall k | 0 <= k < last ensures Step(Run(s, before[..k]), before[k]) != Run(s, before[..k]) {
        assert before[..k] == events[..k];
      }
      ServiceRun(s, before);
      StepPreservesInv(Run(s, before), events[last]);
      ServiceStep(Run(s, before), events[last]);
    }
  }

  lemma OutstandingIsSmall(s: Gpt)
    ensures Outstanding(s) <= 8
  {}

  /** However the line, the NVIC and the ISR proceed, with interrupts unmasked and no further tick they are done
      after at most eight changes, and have then counted every owed timeout exactly once. They cannot get stuck
      before. */
  lemma EveryServiceRunDrains(s: Gpt, events: seq<Event>, service: seq<Event>)
    requires Boot(s)
    requires var t := Run(s, events);
             t.log.armed && t.fg.Outside? && !t.primask && Service(service) && Effective(t, service)
    ensures |service| <= 8
    ensures var t, u := Run(s, events), Run(s, events + service);
            && (Still(u) <==> Idle(u))
            && (Idle(u) ==> u.log.total == t.log.total + Owed(t)) && u.log.timeouts == t.log.timeouts
  {
    var t := Run(s, events);
    RunPreservesInv(s, events);
    ServiceRun(t, service);
    OutstandingIsSmall(t);
    RunConcat(s, events, service);
    StillMeansIdle(Run(t, service));
  }

  lemma {:induction false} DrainFrom(t: Gpt) returns (drain: seq<Event>)
    requires Inv(t) && t.log.armed && t.fg.Outside? && !t.primask
    ensures |drain| <= Outstanding(t) && Service(drain)
    ensures var u := Run(t, drain);
            Idle(u) && u.log.total == t.log.total + Owed(t) && u.log.timeouts == t.log.timeouts
    decreases Outstanding(t)
  {
    if Idle(t) {
      drain := [];
    } else {
      var e := NextService(t);
      ServiceStep(t, e);
      StepPreservesInv(t, e);
      var rest := DrainFrom(Step(t, e));
      drain := [e] + rest;
      RunFirst(t, e, rest);
    }
  }

  /** And such a run exists: outstanding timeouts can always be drained into the count. */
  lemma OutstandingTimeoutsDrain(s: Gpt, events: seq<Event>) returns (drain: seq<Event>)
    requires Boot(s)
    requires var t := Run(s, events); t.log.armed && t.fg.Outside? && !t.primask
    ensures |drain| <= 8 && Service(drain)
    ensures var t, u := Run(s, events), Run(s, events + drain);
            Idle(u) && u.log.total == t.log.total + Owed(t) && u.log.timeouts == t.log.timeouts
  {
    RunPreservesInv(s, events);
    drain := DrainFrom(Run(s, events));
    OutstandingIsSmall(Run(s, events));
    RunConcat(s, events, drain);
  }

  // ---- Such runs exist: a timer can be constructed, armed, left to expire and be served ----

  lemma {:induction false} StopFinishes(s: Gpt) returns (events: seq<Event>)
    requires s.fg.Stopping? && s.isr.Inactive?
    ensures var t := Run(s, events);
            && t.isr.Inactive? && t.primask == s.primask && t.log.total == s.log.total
            && t.fg == if s.fg.caller.Rearm? then Arming(WriteConfig, s.fg.caller.ticks, s.fg.caller.mode) else Outside
    decreases 7 - StopRank(s.fg.stopPc)
  {
    var next := StopAdvance(s);
    var rest := [];
    if next.fg.Stopping? {
      rest := StopFinishes(next);
    }
    RunFirst(s, ForegroundStep, rest);
    events := [ForegroundStep] + rest;
  }

  lemma {:induction false} ArmFinishes(s: Gpt) returns (events: seq<Event>)
    requires s.fg.Arming? && s.isr.Inactive?
    ensures var t := Run(s, events);
            && t.isr.Inactive? && t.primask == s.primask && t.log.total == s.log.total
            && t.fg.Outside? && t.log.armed && t.regs.running
    decreases 6 - ArmRank(s.fg.armPc)
  {
    var next := ArmAdvance(s);
    var rest := [];
    if next.fg.Arming? {
      rest := ArmFinishes(next);
    }
    RunFirst(s, ForegroundStep, rest);
    events := [ForegroundStep] + rest;
  }

  lemma {:induction false} TicksExpire(s: Gpt) returns (events: seq<Event>)
    requires s.regs.running
    ensures var t := Run(s, events);
            t.regs.latch && t.isr == s.isr && t.fg == s.fg && t.primask == s.primask
            && t.log.armed == s.log.armed && t.log.total == s.log.total
    decreases s.regs.countdown
  {
    var rest := [];
    if s.regs.countdown > 0 {
      rest := TicksExpire(CountDown(s));
    }
    RunFirst(s, Tick, rest);
    events := [Tick] + rest;
  }

  lemma Extend(s: Gpt, events: seq<Event>, e: Event) returns (longer: seq<Event>)
    ensures longer == events + [e] && Run(s, longer) == Step(Run(s, events), e)
  {
    longer := events + [e];
    assert longer[..|events|] == events;
  }

  lemma ServiceRunStays(s: Gpt, events: seq<Event>)
    requires Inv(s) && s.log.armed && s.fg.Outside? && Service(events)
    ensures Run(s, events).log.armed && Run(s, events).fg.Outside?
  {
    EpochRun(s, events);
  }

  lemma ConstructionFinishes(s: Gpt) returns (events: seq<Event>)
    requires Boot(s)
    ensures var t := Run(s, events);
            Inv(t) && t.fg.Outside? && t.isr.Inactive? && !t.primask && t.log.total == 0
  {
    events := StopFinishes(s);
    events := Extend(s, events, SetMask(false));
    RunPreservesInv(s, events);
  }

  lemma RearmFinishes(s: Gpt) returns (events: seq<Event>)
    requires s.fg.Stopping? && s.fg.stopPc.DisableNvic? && s.fg.caller.Rearm? && s.isr.Inactive?
    ensures var t := Run(s, events);
            && t.isr.Inactive? && t.primask == s.primask && t.log.total == s.log.total
            && t.fg.Outside? && t.log.armed && t.regs.running
  {
    var stop := StopFinishes(s);
    var arm := ArmFinishes(Run(s, stop));
    RunConcat(s, stop, arm);
    events := stop + arm;
  }

  lemma CallFinishes(s: Gpt, microseconds: u32, mode: Mode) returns (events: seq<Event>)
    requires s.fg.Outside? && s.isr.Inactive? && 1 <= microseconds <= 89_478_485
    ensures var t := Run(s, events);
            && t.isr.Inactive? && t.primask == s.primask && t.log.total == s.log.total
            && t.fg.Outside? && t.log.armed && t.regs.running
  {
    ArmAcceptance(s, microseconds, mode);
    var accesses := RearmFinishes(Step(s, CallArm(microseconds, mode)));
    RunFirst(s, CallArm(microseconds, mode), accesses);
    events := [CallArm(microseconds, mode)] + accesses;
  }

  lemma ExpiryIsServed(s: Gpt) returns (events: seq<Event>)
    requires Inv(s) && s.isr.Inactive? && !s.primask && s.fg.Outside? && s.log.armed && s.regs.running
    ensures var t := Run(s, events);
            t.log.armed && t.fg.Outside? && Idle(t) && t.log.total == s.log.total + 1
  {
    var ticks := TicksExpire(s);
    RunPreservesInv(s, ticks);
    var drain := DrainFrom(Run(s, ticks));
    RunConcat(s, ticks, drain);
    ServiceRunStays(Run(s, ticks), drain);
    events := ticks + drain;
  }

  /** One whole life from reset: construct, unmask, arm with any acceptable interval, expire, be served once. */
  lemma SomeRunServes(s: Gpt, microseconds: u32, mode: Mode) returns (events: seq<Event>)
    requires Boot(s) && 1 <= microseconds <= 89_478_485
    ensures var t := Run(s, events); t.log.armed && t.fg.Outside? && Idle(t) && t.log.total == 1
  {
    var construction := ConstructionFinishes(s);
    var built := Run(s, construction);
    var call := CallFinishes(built, microseconds, mode);
    RunPreservesInv(built, call);
    var service := ExpiryIsServed(Run(built, call));
    RunConcat(built, call, service);
    RunConcat(s, construction, call + service);
    events := construction + (call + service);
  }
}
