/** The timer checks of the bring-up application as one run from reset: a periodic interval, a stop, a silent
    wait, two refused requests and a one-shot. */
module TimerBringup {
  import opened Word32
  import opened TimerMachine
  import opened TimerProtocol
  import opened TimerTicks

  const INTERVAL_US: u32 := 1_000
  const INTERVAL_TICKS: int := 48_000

  function AfterStop(s: Gpt, during: seq<Event>): Gpt {
    Run(Step(s, CallStop), during)
  }

  /** `during` is one whole client `stop` call, from its entry to its return. */
  ghost predicate StopReturns(s: Gpt, during: seq<Event>) {
    && s.fg.Outside? && s.isr.Inactive?
    && (forall k | 0 <= k < |during| :: !AfterStop(s, during[..k]).fg.Outside?)
    && AfterStop(s, during).fg.Outside?
  }

  lemma StoppingStep(s: Gpt, e: Event)
    requires Inv(s) && s.fg.Stopping? && s.fg.caller.Client?
    ensures var t := Step(s, e);
            if t.fg.Outside? then Dormant(t) && !t.log.armed else t.fg.Stopping? && t.fg.caller.Client?
  {
    if IsBackground(e) {
      BackgroundFrame(s, e);
    } else if Step(s, e).fg.Outside? {
      LastStopStep(s, e);
    }
  }

  lemma {:induction false} StoppingRun(s: Gpt, events: seq<Event>)
    requires Inv(s) && s.fg.Stopping? && s.fg.caller.Client?
    requires forall k | 0 <= k < |events| :: !Run(s, events[..k]).fg.Outside?
    ensures var t := Run(s, events);
            Inv(t) && if t.fg.Outside? then Dormant(t) && !t.log.armed else t.fg.Stopping? && t.fg.caller.Client?
    decreases |events|
  {
    if events == [] {
    } else {
      var last := |events| - 1;
      var prefix := events[..last];
      forall k | 0 <= k < last ensures !Run(s, prefix[..k]).fg.Outside? {
        assert prefix[..k] == events[..k];
      }
      StoppingRun(s, prefix);
      assert !Run(s, prefix).fg.Outside?;
      StoppingStep(Run(s, prefix), events[last]);
      StepPreservesInv(Run(s, prefix), events[last]);
    }
  }

  lemma StopLeavesDormant(s: Gpt, during: seq<Event>)
    requires Inv(s) && StopReturns(s, during)
    ensures var t := AfterStop(s, during); Inv(t) && t.fg.Outside? && Dormant(t) && !t.log.armed
  {
    StepPreservesInv(s, CallStop);
    forall k | 0 <= k < |during| ensures !Run(Step(s, CallStop), during[..k]).fg.Outside? {
      assert !AfterStop(s, during[..k]).fg.Outside?;
    }
    StoppingRun(Step(s, CallStop), during);
  }

  /** What happens in each phase: up to the end of construction, during each driver call, and while waiting. */
  datatype Session = Session(
    before: seq<Event>,
    arming: seq<Event>, serving: seq<Event>,
    stopping: seq<Event>, silence: seq<Event>,
    rearming: seq<Event>, waiting: seq<Event>)

  function Constructed(s: Gpt, r: Session): Gpt {
    Run(s, r.before)
  }

  function Serving(s: Gpt, r: Session): Gpt {
    Run(AfterArm(Constructed(s, r), INTERVAL_US, Periodic, r.arming), r.serving)
  }

  function Stopped(s: Gpt, r: Session): Gpt {
    AfterStop(Serving(s, r), r.stopping)
  }

  function Silent(s: Gpt, r: Session): Gpt {
    Run(Stopped(s, r), r.silence)
  }

  /** A zero interval and one of 2^32 - 1 microseconds. */
  function Refused(s: Gpt, r: Session): Gpt {
    Step(Step(Silent(s, r), CallArm(0, Periodic)), CallArm(0xffff_ffff, Periodic))
  }

  function Expired(s: Gpt, r: Session): Gpt {
    Run(AfterArm(Refused(s, r), INTERVAL_US, OneShot, r.rearming), r.waiting)
  }

  /** The phases in order; each wait leaves the epoch alone, whatever else happens in it. */
  ghost predicate Follows(s: Gpt, r: Session) {
    && Boot(s) && Constructed(s, r).fg.Outside? && !Constructed(s, r).log.armed
    && ArmReturns(Constructed(s, r), INTERVAL_US, Periodic, r.arming) && WithinEpoch(r.serving)
    && StopReturns(Serving(s, r), r.stopping) && WithinEpoch(r.silence)
    && ArmReturns(Refused(s, r), INTERVAL_US, OneShot, r.rearming) && WithinEpoch(r.waiting)
  }

  lemma PeriodicPhase(s: Gpt, r: Session)
    requires Follows(s, r)
    ensures var t := Serving(s, r);
            Inv(t) && t.log.total <= Constructed(s, r).log.total + CountTicks(r.serving) / INTERVAL_TICKS
  {
    RunPreservesInv(s, r.before);
    EpochAccount(Constructed(s, r), INTERVAL_US, Periodic, r.arming, r.serving);
  }

  lemma {:induction false} SilentStaysUnarmed(s: Gpt, events: seq<Event>)
    requires s.fg.Outside? && !s.log.armed && WithinEpoch(events)
    ensures Run(s, events).fg.Outside? && !Run(s, events).log.armed
    decreases |events|
  {
    if events == [] {
    } else {
      SilentStaysUnarmed(s, events[..|events| - 1]);
      EpochFrame(Run(s, events[..|events| - 1]), events[|events| - 1]);
    }
  }

  lemma SilentPhase(s: Gpt, r: Session)
    requires Follows(s, r)
    ensures Inv(Silent(s, r)) && !Silent(s, r).log.armed && Silent(s, r).log.count == Stopped(s, r).log.count
    ensures Refused(s, r) == Silent(s, r)
  {
    PeriodicPhase(s, r);
    StopLeavesDormant(Serving(s, r), r.stopping);
    DormantRun(Stopped(s, r), r.silence);
    RunPreservesInv(Stopped(s, r), r.silence);
    SilentStaysUnarmed(Stopped(s, r), r.silence);
  }

  /** Every assertion of the sequence, for every interleaving: no more interrupts than whole intervals while
      periodic, none after the stop, both bad requests refused with nothing changed, and after the one-shot
      exactly one more, precisely when its timeout is not still latched or in service. */
  lemma BringupChecks(s: Gpt, r: Session)
    requires Follows(s, r)
    ensures Serving(s, r).log.total <= Constructed(s, r).log.total + CountTicks(r.serving) / INTERVAL_TICKS
    ensures Silent(s, r).log.count == Stopped(s, r).log.count
    ensures Refused(s, r) == Silent(s, r)
    ensures CountTicks(r.waiting) >= INTERVAL_TICKS ==>
              (Expired(s, r).log.count == Wrap(Stopped(s, r).log.count + 1) <==> Owed(Expired(s, r)) == 0)
  {
    PeriodicPhase(s, r);
    SilentPhase(s, r);
    if CountTicks(r.waiting) >= INTERVAL_TICKS {
      OneShotOnStopped(Refused(s, r), INTERVAL_US, r.rearming, r.waiting);
    }
  }
}
