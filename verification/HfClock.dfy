/** The switch from the RC oscillator to the HF crystal, one register access at a time, beside a crystal whose
    readiness comes and goes and interrupt handlers that run whenever they are not masked. The ROM routine is
    foreign: on return the crystal is assumed to be the clock source and no switch pending. */
module HfClock {
  import opened Wrappers

  // The access of `try_switch_to_hf_crystal` that comes next, with what its local variables hold.
  datatype Pc =
    | Outside
    | ReadStatus
    | MaskInterrupts(ready: bool)
    | CallRom(ready: bool, saved: bool)
    | ClearOverride(saved: bool)
    | RestoreMask(saved: bool)

  /** What has happened: ROM calls, and those made unmasked or without readiness having been read; clearings of
      the override, and those made off the crystal or unmasked; handlers run inside the masked section. */
  datatype Log = Log(romCalls: nat, badRomCalls: nat, clears: nat, badClears: nat, handlersInside: nat)

  datatype Osc = Osc(
    requested: bool,       // CTL0.SCLK_HF_SRC_SEL
    crystal: bool,         // STAT0.SCLK_HF_SRC: the crystal is the active source
    switchPending: bool,   // STAT0.PENDINGSCLKHFSWITCHING
    dcdcOverride: bool,    // CTL0.CLK_DCDC_SRC_SEL
    primask: bool,
    pc: Pc,
    returned: Option<bool>, // result of the last call, once it has returned
    entryMask: bool,        // history: PRIMASK when the call was made
    log: Log)               // history

  /** Startup leaves the RC oscillator selected and the regulator on it. */
  predicate AtReset(o: Osc) {
    && !o.requested && !o.crystal && !o.switchPending && o.dcdcOverride
    && o.pc.Outside? && o.returned == None && o.log == Log(0, 0, 0, 0, 0)
  }

  datatype Event =
    | Readiness(on: bool)   // the crystal settles or is lost
    | Handler               // an interrupt handler runs; it leaves PRIMASK as it found it
    | Request
    | SetPrimask(on: bool)  // by the foreground, between calls
    | CallTrySwitch
    | Advance               // the next access of the call

  predicate Switching(pc: Pc) {
    pc.CallRom? || pc.ClearOverride? || pc.RestoreMask?
  }

  function Return(o: Osc, result: bool): Osc {
    o.(pc := Outside, returned := Some(result))
  }

  /** One access, as the code makes it from what it finds. */
  function AdvanceCall(o: Osc): Osc {
    match o.pc
    case Outside => o
    case ReadStatus =>
      if o.crystal then Return(o, true)
      else if !o.switchPending then Return(o, false)
      else o.(pc := MaskInterrupts(o.switchPending))
    case MaskInterrupts(ready) => o.(primask := true, pc := CallRom(ready, o.primask))
    case CallRom(ready, saved) =>
      o.(crystal := true, switchPending := false, pc := ClearOverride(saved),
         log := o.log.(romCalls := o.log.romCalls + 1,
                       badRomCalls := o.log.badRomCalls + if o.primask && ready then 0 else 1))
    case ClearOverride(saved) =>
      o.(dcdcOverride := false, pc := RestoreMask(saved),
         log := o.log.(clears := o.log.clears + 1,
                       badClears := o.log.badClears + if o.crystal && o.primask then 0 else 1))
    case RestoreMask(saved) => Return(o.(primask := saved), true)
  }

  /** An event that cannot happen in a state leaves it alone. */
  function Step(o: Osc, e: Event): Osc {
    match e
    case Readiness(on) => if o.requested && !o.crystal then o.(switchPending := on) else o
    case Handler =>
      if o.primask || !Switching(o.pc) then o else o.(log := o.log.(handlersInside := o.log.handlersInside + 1))
    case Request => if o.pc.Outside? then o.(requested := true) else o
    case SetPrimask(on) => if o.pc.Outside? then o.(primask := on) else o
    case CallTrySwitch => if o.pc.Outside? then o.(pc := ReadStatus, returned := None, entryMask := o.primask) else o
    case Advance => AdvanceCall(o)
  }

  function Run(o: Osc, events: seq<Event>): Osc
    decreases |events|
  {
    if events == [] then o else Step(Run(o, events[..|events| - 1]), events[|events| - 1])
  }

  /** At most one ROM call, masked and after readiness was read; then one clearing of the override, with the
      crystal active and interrupts still masked; and no handler in between. */
  predicate SafeHistory(o: Osc) {
    && o.log.badRomCalls == o.log.badClears == o.log.handlersInside == 0
    && o.log.romCalls == (if o.crystal then 1 else 0)
    && o.log.clears == (if o.dcdcOverride then 0 else 1)
    && o.log.clears <= o.log.romCalls
  }

  /** The last result still tells the truth: the crystal is never left, and is entered only by a call. */
  predicate ReturnedRight(o: Osc) {
    o.returned == Some(o.crystal)
  }

  predicate Inv(o: Osc) {
    && SafeHistory(o)
    && (o.switchPending ==> o.requested && !o.crystal)
    && (o.crystal ==> o.requested)
    && match o.pc
       case Outside => o.crystal == !o.dcdcOverride && (o.returned.Some? ==> ReturnedRight(o))
       case ReadStatus => o.crystal == !o.dcdcOverride && o.primask == o.entryMask
       case MaskInterrupts(ready) => !o.crystal && ready && o.requested && o.primask == o.entryMask
       case CallRom(ready, saved) => !o.crystal && ready && o.requested && o.primask && saved == o.entryMask
       case ClearOverride(saved) => o.crystal && o.dcdcOverride && o.primask && saved == o.entryMask
       case RestoreMask(saved) => o.crystal && !o.dcdcOverride && o.primask && saved == o.entryMask
  }

  lemma AdvancePreservesInv(o: Osc)
    requires Inv(o)
    ensures Inv(AdvanceCall(o))
  {
    match o.pc
    case Outside =>
    case ReadStatus =>
    case MaskInterrupts(_) =>
    case CallRom(_, _) =>
    case ClearOverride(_) =>
    case RestoreMask(_) =>
  }

  lemma StepPreservesInv(o: Osc, e: Event)
    requires Inv(o)
    ensures Inv(Step(o, e))
  {
    match e
    case Handler =>
    case Advance => AdvancePreservesInv(o);
    case Readiness(_) =>
    case Request =>
    case SetPrimask(_) =>
    case CallTrySwitch =>
  }

  lemma StepKeeps(o: Osc, e: Event)
    ensures o.crystal ==> Step(o, e).crystal
    ensures !o.dcdcOverride ==> !Step(o, e).dcdcOverride
  {}

  lemma {:induction false} RunPreservesInv(o: Osc, events: seq<Event>)
    requires Inv(o)
    ensures Inv(Run(o, events))
    ensures o.crystal ==> Run(o, events).crystal
    ensures !o.dcdcOverride ==> !Run(o, events).dcdcOverride
    decreases |events|
  {
    if events == [] {
    } else {
      var before := Run(o, events[..|events| - 1]);
      RunPreservesInv(o, events[..|events| - 1]);
      StepPreservesInv(before, events[|events| - 1]);
      StepKeeps(before, events[|events| - 1]);
    }
  }

  /** However readiness, handlers, other mask changes and calls interleave from reset. */
  lemma SwitchIsSafe(o: Osc, events: seq<Event>)
    requires AtReset(o)
    ensures SafeHistory(Run(o, events))
  {
    RunPreservesInv(o, events);
  }

  /** A call returns with PRIMASK as it was when the call was made, and says whether the crystal is the source. */
  lemma CallReturnsRight(o: Osc, events: seq<Event>, e: Event)
    requires AtReset(o)
    requires !Run(o, events).pc.Outside? && Step(Run(o, events), e).pc.Outside?
    ensures var s, t := Run(o, events), Step(Run(o, events), e);
            t.primask == s.entryMask && t.returned == Some(t.crystal)
  {
    RunPreservesInv(o, events);
  }

  /** `entryMask` is PRIMASK at the call, and nothing changes it until the call returns. */
  lemma EntryMaskIsFixed(o: Osc, e: Event)
    ensures var t := Step(o, e);
            if o.pc.Outside? && !t.pc.Outside? then t.entryMask == o.primask else t.entryMask == o.entryMask
  {}

  /** Once the crystal is the source, no run leaves it or repeats the ROM call, and once the call has cleared
      the override nothing more happens to the clock. */
  lemma SwitchIsPermanent(o: Osc, before: seq<Event>, after: seq<Event>)
    requires AtReset(o) && Run(o, before).crystal
    ensures var now, later := Run(o, before), Run(Run(o, before), after);
            && later.crystal && !later.switchPending
            && later.log.romCalls == now.log.romCalls == 1
            && (!now.dcdcOverride ==> !later.dcdcOverride && later.log == now.log)
  {
    RunPreservesInv(o, before);
    RunPreservesInv(Run(o, before), after);
  }

  /** Past the status read and not yet returned. */
  predicate Committed(pc: Pc) {
    !pc.Outside? && !pc.ReadStatus?
  }

  /** The status access decides: with the crystal inactive and a switch pending the call goes on; otherwise it
      returns at once, with false exactly when both bits were clear. */
  lemma StatusDecides(o: Osc)
    requires o.pc.ReadStatus?
    ensures var t := Step(o, Advance);
            if !o.crystal && o.switchPending then Committed(t.pc)
            else t == o.(pc := Outside, returned := Some(o.crystal || o.switchPending))
  {}

  function AccessesLeft(pc: Pc): nat {
    match pc
    case Outside => 0
    case ReadStatus => 5
    case MaskInterrupts(_) => 4
    case CallRom(_, _) => 3
    case ClearOverride(_) => 2
    case RestoreMask(_) => 1
  }

  /** Every access brings the return nearer, and nothing else moves the call. */
  lemma CallAdvances(o: Osc, e: Event)
    requires !o.pc.Outside?
    ensures if e.Advance? then AccessesLeft(Step(o, e).pc) < AccessesLeft(o.pc) else Step(o, e).pc == o.pc
  {}

  lemma CommittedStep(o: Osc, e: Event)
    requires Inv(o) && Committed(o.pc)
    ensures var t := Step(o, e);
            Committed(t.pc) || (t.pc.Outside? && t.returned == Some(true) && t.crystal && !t.dcdcOverride)
  {}

  /** The call has not returned during `events`. */
  ghost predicate Unreturned(o: Osc, events: seq<Event>) {
    forall k | 0 <= k < |events| :: !Run(o, events[..k]).pc.Outside?
  }

  lemma {:induction false} CommittedRun(o: Osc, events: seq<Event>)
    requires Inv(o) && Committed(o.pc) && Unreturned(o, events)
    ensures var t := Run(o, events);
            Committed(t.pc) || (t.pc.Outside? && t.returned == Some(true) && t.crystal && !t.dcdcOverride)
    decreases |events|
  {
    if events == [] {
    } else {
      var prefix := events[..|events| - 1];
      forall k | 0 <= k < |prefix| ensures !Run(o, prefix[..k]).pc.Outside? {
        assert prefix[..k] == events[..k];
      }
      CommittedRun(o, prefix);
      assert !Run(o, prefix).pc.Outside?;
      RunPreservesInv(o, prefix);
      CommittedStep(Run(o, prefix), events[|events| - 1]);
    }
  }

  /** One more ROM call and one more clearing, both as they should be. */
  function WithSwitch(log: Log): Log {
    log.(romCalls := log.romCalls + 1, clears := log.clears + 1)
  }

  /** A call that finds the crystal inactive and a switch pending returns true with the crystal selected and the
      override cleared, and adds exactly one ROM switch and one clearing, whatever runs in between. */
  lemma ReadyCallSwitches(o: Osc, before: seq<Event>, during: seq<Event>)
    requires AtReset(o)
    requires var s := Run(o, before);
             && s.pc.ReadStatus? && !s.crystal && s.switchPending
             && Unreturned(Step(s, Advance), during) && Run(Step(s, Advance), during).pc.Outside?
    ensures var s := Run(o, before);
            var t := Run(Step(s, Advance), during);
            && t.returned == Some(true) && t.crystal && !t.dcdcOverride
            && t.log == WithSwitch(s.log)
  {
    var s := Run(o, before);
    RunPreservesInv(o, before);
    StatusDecides(s);
    StepPreservesInv(s, Advance);
    CommittedRun(Step(s, Advance), during);
    RunPreservesInv(Step(s, Advance), during);
  }

  lemma Extend(o: Osc, events: seq<Event>, e: Event) returns (longer: seq<Event>)
    ensures longer == events + [e] && Run(o, longer) == Step(Run(o, events), e)
  {
    longer := events + [e];
    assert longer[..|events|] == events;
  }

  /** Such a call exists: request, readiness, and a call left to run. */
  lemma SomeRunSwitches(o: Osc) returns (events: seq<Event>)
    requires AtReset(o)
    ensures var t := Run(o, events); t.returned == Some(true) && t.crystal && t.log.romCalls == 1
  {
    events := Extend(o, [], Request);
    events := Extend(o, events, Readiness(true));
    events := Extend(o, events, CallTrySwitch);
    for i := 0 to 5
      invariant var t := Run(o, events);
                && t.log.romCalls == (if i <= 2 then 0 else 1) && t.crystal == (i > 2)
                && AccessesLeft(t.pc) == 5 - i
                && (i == 0 ==> t.switchPending && t.pc.ReadStatus?)
                && (i == 5 ==> t.returned == Some(true))
    {
      events := Extend(o, events, Advance);
    }
  }

  /** What may happen between two accesses of a call. */
  predicate Between(events: seq<Event>) {
    forall e <- events :: e.Readiness? || e.Handler?
  }

  ghost predicate AllBetween(noise: seq<seq<Event>>) {
    forall k | 0 <= k < |noise| :: Between(noise[k])
  }

  /** Nothing but readiness changes, unless a handler runs where it must not. */
  lemma BetweenIsSilent(o: Osc, e: Event)
    requires (e.Readiness? || e.Handler?) && (Switching(o.pc) ==> o.primask)
    ensures Step(o, e) == o.(switchPending := Step(o, e).switchPending)
  {}

  /** One access after the given events, for each entry of `noise` in turn. */
  ghost predicate Woven(segments: seq<seq<Event>>, noise: seq<seq<Event>>) {
    |segments| == |noise| && forall k | 0 <= k < |noise| :: segments[k] == noise[k] + [Advance]
  }

  function RunAll(o: Osc, segments: seq<seq<Event>>): Osc
    decreases |segments|
  {
    if segments == [] then o
    else Run(RunAll(o, segments[..|segments| - 1]), segments[|segments| - 1])
  }

  function Flatten(segments: seq<seq<Event>>): seq<Event>
    decreases |segments|
  {
    if segments == [] then [] else Flatten(segments[..|segments| - 1]) + segments[|segments| - 1]
  }

  lemma {:induction false} RunConcat(o: Osc, first: seq<Event>, second: seq<Event>)
    ensures Run(Run(o, first), second) == Run(o, first + second)
    decreases |second|
  {
    if second == [] {
      assert first + second == first;
    } else {
      var last := |second| - 1;
      RunConcat(o, first, second[..last]);
      assert (first + second)[..|first + second| - 1] == first + second[..last];
    }
  }

  /** Accesses in segments are one run of the machine. */
  lemma {:induction false} RunAllIsRun(o: Osc, segments: seq<seq<Event>>)
    ensures RunAll(o, segments) == Run(o, Flatten(segments))
    decreases |segments|
  {
    if segments == [] {
    } else {
      var last := |segments| - 1;
      RunAllIsRun(o, segments[..last]);
      RunConcat(o, Flatten(segments[..last]), segments[last]);
    }
  }

  lemma Append(o: Osc, segments: seq<seq<Event>>, segment: seq<Event>) returns (longer: seq<seq<Event>>)
    ensures longer == segments + [segment]
    ensures RunAll(o, longer) == Run(RunAll(o, segments), segment)
  {
    longer := segments + [segment];
    assert longer[..|segments|] == segments;
  }

  lemma Close(o: Osc, noise: seq<Event>) returns (segment: seq<Event>)
    ensures segment == noise + [Advance] && Run(o, segment) == Step(Run(o, noise), Advance)
  {
    segment := noise + [Advance];
    assert segment[..|noise|] == noise;
  }

  class Clocks {
    var osc: Osc

    constructor (primask: bool)
      ensures AtReset(osc) && osc.primask == primask
    {
      osc := Osc(false, false, false, true, primask, Outside, None, primask, Log(0, 0, 0, 0, 0));
    }

    method RequestHfCrystal()
      requires osc.pc.Outside?
      modifies this
      ensures osc == Step(old(osc), Request) && osc == old(osc).(requested := true)
    {
      osc := osc.(requested := true);
    }

    method HfCrystalReady() returns (ready: bool)
      ensures ready == (osc.crystal || osc.switchPending)
    {
      ready := osc.crystal || osc.switchPending;
    }

    /** Whatever happens before the next access. */
    method Elapse(noise: seq<Event>)
      requires Between(noise) && (Switching(osc.pc) ==> osc.primask)
      modifies this
      ensures osc == Run(old(osc), noise)
      ensures osc == old(osc).(switchPending := osc.switchPending)
    {
      for i := 0 to |noise|
        invariant osc == Run(old(osc), noise[..i])
        invariant osc == old(osc).(switchPending := osc.switchPending)
      {
        assert noise[..i + 1][..i] == noise[..i];
        BetweenIsSilent(osc, noise[i]);
        osc := Step(osc, noise[i]);
      }
      assert noise[..|noise|] == noise;
    }

    /** The status access, which finds `seen`: a pending switch sends the call on, anything else ends it. */
    method CheckStatus(noise: seq<Event>) returns (goesOn: bool, ghost seen: Osc, ghost segment: seq<Event>)
      requires osc.pc.ReadStatus? && Between(noise)
      modifies this
      ensures osc == Run(old(osc), segment) && segment == noise + [Advance]
      ensures seen == Run(old(osc), noise)
      ensures seen == old(osc).(switchPending := seen.switchPending)
      ensures goesOn <==> !seen.crystal && seen.switchPending
      ensures osc == if goesOn then seen.(pc := MaskInterrupts(true))
                     else seen.(pc := Outside, returned := Some(seen.crystal))
    {
      Elapse(noise);
      segment := Close(old(osc), noise);
      seen := osc;
      goesOn := !osc.crystal && osc.switchPending;
      if goesOn {
        osc := osc.(pc := MaskInterrupts(true));
      } else {
        osc := osc.(pc := Outside, returned := Some(osc.crystal));
      }
    }

    /** Save PRIMASK and set it. */
    method SaveAndDisable(noise: seq<Event>) returns (mask: bool, ghost segment: seq<Event>)
      requires osc.pc == MaskInterrupts(true) && Between(noise)
      modifies this
      ensures osc == Run(old(osc), segment) && segment == noise + [Advance]
      ensures mask == old(osc).primask && osc.primask && osc.pc == CallRom(true, mask)
      ensures osc.log == old(osc).log
    {
      Elapse(noise);
      segment := Close(old(osc), noise);
      mask := osc.primask;
      osc := osc.(primask := true, pc := CallRom(true, mask));
    }

    /** The assumed effect of the ROM routine. */
    method HfSourceSafeSwitch(noise: seq<Event>) returns (ghost segment: seq<Event>)
      requires osc.pc.CallRom? && osc.pc.ready && osc.primask && Between(noise)
      modifies this
      ensures osc == Run(old(osc), segment) && segment == noise + [Advance]
      ensures osc.crystal && osc.primask && osc.pc == ClearOverride(old(osc).pc.saved)
      ensures osc.log == old(osc).log.(romCalls := old(osc).log.romCalls + 1)
      ensures osc.dcdcOverride == old(osc).dcdcOverride
    {
      Elapse(noise);
      segment := Close(old(osc), noise);
      osc := osc.(crystal := true, switchPending := false, pc := ClearOverride(osc.pc.saved),
                  log := osc.log.(romCalls := osc.log.romCalls + 1,
                                  badRomCalls := osc.log.badRomCalls + if osc.primask && osc.pc.ready then 0 else 1));
    }

    /** DDI clear of the regulator override. */
    method ClearDcdcOverride(noise: seq<Event>) returns (ghost segment: seq<Event>)
      requires osc.pc.ClearOverride? && osc.crystal && osc.primask && Between(noise)
      modifies this
      ensures osc == Run(old(osc), segment) && segment == noise + [Advance]
      ensures osc.crystal && osc.primask && !osc.dcdcOverride && osc.pc == RestoreMask(old(osc).pc.saved)
      ensures osc.log == old(osc).log.(clears := old(osc).log.clears + 1)
    {
      Elapse(noise);
      segment := Close(old(osc), noise);
      osc := osc.(dcdcOverride := false, pc := RestoreMask(osc.pc.saved),
                  log := osc.log.(clears := osc.log.clears + 1,
                                  badClears := osc.log.badClears + if osc.crystal && osc.primask then 0 else 1));
    }

    /** PRIMASK as it was saved; the call returns true. */
    method Restore(mask: bool, noise: seq<Event>) returns (ghost segment: seq<Event>)
      requires osc.pc == RestoreMask(mask) && osc.crystal && !osc.dcdcOverride && osc.primask && Between(noise)
      modifies this
      ensures osc == Run(old(osc), segment) && segment == noise + [Advance]
      ensures osc.crystal && !osc.dcdcOverride && osc.primask == mask
      ensures osc.pc.Outside? && osc.returned == Some(true)
      ensures osc.log == old(osc).log
    {
      Elapse(noise);
      segment := Close(old(osc), noise);
      osc := osc.(primask := mask, pc := Outside, returned := Some(true));
    }

    /** Everything after a status access that found a switch pending. */
    method Commit(noise: seq<seq<Event>>) returns (ghost segments: seq<seq<Event>>)
      requires osc.pc == MaskInterrupts(true)
      requires |noise| == 4 && AllBetween(noise)
      modifies this
      ensures osc == RunAll(old(osc), segments) && Woven(segments, noise)
      ensures osc.pc.Outside? && osc.returned == Some(true) && osc.crystal && !osc.dcdcOverride
      ensures osc.primask == old(osc).primask
      ensures osc.log == WithSwitch(old(osc).log)
    {
      var mask;
      ghost var s;
      mask, s := SaveAndDisable(noise[0]);
      segments := Append(old(osc), [], s);
      s := HfSourceSafeSwitch(noise[1]);
      segments := Append(old(osc), segments, s);
      s := ClearDcdcOverride(noise[2]);
      segments := Append(old(osc), segments, s);
      s := Restore(mask, noise[3]);
      segments := Append(old(osc), segments, s);
    }

    /** One status access after `first`, found in state `seen`. A pending switch is made: interrupts are masked
        from before the ROM call until its clean-up is done, and then as the caller had them; `rest` comes before
        those four accesses. Otherwise nothing but the status access happens. */
    method TrySwitchToHfCrystal(first: seq<Event>, rest: seq<seq<Event>>)
      returns (switched: bool, ghost seen: Osc, ghost status: seq<Event>, ghost segments: seq<seq<Event>>)
      requires osc.pc.Outside? && Between(first) && |rest| == 4 && AllBetween(rest)
      modifies this
      ensures osc == RunAll(Run(Step(old(osc), CallTrySwitch), status), segments) && osc.pc.Outside?
      ensures status == first + [Advance]
      ensures seen == Run(Step(old(osc), CallTrySwitch), first) && seen.crystal == old(osc).crystal
      ensures switched <==> seen.crystal || seen.switchPending
      ensures first == [] ==> (switched <==> old(osc).crystal || old(osc).switchPending)
      ensures !seen.crystal && seen.switchPending ==>
                Woven(segments, rest) && !osc.dcdcOverride && osc.log == WithSwitch(old(osc).log)
      ensures seen.crystal || !seen.switchPending ==>
                segments == [] && osc == seen.(pc := Outside, returned := Some(switched)) && osc.log == old(osc).log
      ensures osc.returned == Some(switched) && switched == osc.crystal && osc.primask == old(osc).primask
    {
      osc := osc.(pc := ReadStatus, returned := None, entryMask := osc.primask);
      var goesOn;
      goesOn, seen, status := CheckStatus(first);
      segments := [];
      if goesOn {
        segments := Commit(rest);
      }
      switched := osc.crystal;
    }
  }
}
