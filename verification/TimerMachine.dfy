/** One GPT used as an interrupt timer: the foreground register writes of `arm` and `stop`, the counting
    hardware, the lagging interrupt line, its NVIC bits and its ISR, interleaved one step at a time. */
module TimerMachine {
  import opened Word32
  import opened Wrappers

  datatype Mode = OneShot | Periodic

  // Each program counter names the write that comes next.
  datatype IsrPc = Inactive | AtClear | AtSettle | AtCount

  datatype StopPc =
    | DisableNvic
    | Barrier
    | StopCounting
    | MaskSource
    | ClearLatch
    | SettleLine
    | ClearPending

  datatype ArmPc =
    | WriteConfig
    | WriteMode
    | WriteReload
    | UnmaskSource
    | EnableNvic
    | EnableTimer

  /** Who called `stop`, and what follows it. */
  datatype Caller = Initializer | Client | Rearm(ticks: u32, mode: Mode)

  datatype Foreground =
    | Outside
    | Stopping(stopPc: StopPc, caller: Caller)
    | Arming(armPc: ArmPc, ticks: u32, newMode: Mode)

  /** The GPT's own registers. */
  datatype Registers = Registers(
    running: bool,       // CTL.TAEN
    mode: Mode,          // TAMR
    reload: nat,         // TAILR
    countdown: nat,
    latch: bool,         // raw timeout status
    unmasked: bool       // IMR
  )

  /** Its interrupt line and NVIC bits. */
  datatype Nvic = Nvic(
    line: bool,          // lags latch && unmasked
    enabled: bool,
    disabling: bool,     // ICER write issued, not yet known complete
    pending: bool
  )

  /** The acknowledgement count, and history: whether an epoch (a completed `arm` not yet stopped) is live,
      hardware timeouts and ISR completions. */
  datatype Log = Log(
    count: u32,          // TIMER_INTERRUPTS
    armed: bool,
    timeouts: nat,       // since the last enable
    total: nat,          // completions since reset
    base: nat            // `total` at the last enable
  )

  datatype Gpt = Gpt(regs: Registers, nvic: Nvic, primask: bool, isr: IsrPc, fg: Foreground, log: Log)

  datatype Event =
    | Tick
    | Propagate
    | Pend
    | FinishDisable
    | EnterIsr
    | IsrStep
    | ForegroundStep
    | SetMask(on: bool)
    | CallStop
    | CallArm(microseconds: u32, mode: Mode)

  const TICKS_PER_US: int := 48

  /** `checked_mul`: the product, unless it leaves 32 bits. */
  function TicksFromUs(microseconds: u32): Option<u32> {
    if microseconds * TICKS_PER_US < MODULUS then Some(microseconds * TICKS_PER_US) else None
  }

  /** Completed ISR executions of the current epoch. */
  function Served(s: Gpt): int {
    s.log.total - s.log.base
  }

  // ---- Steps. An event that cannot happen in a state leaves the state alone. ----

  function CountDown(s: Gpt): (t: Gpt)
    ensures t == s.(regs := t.regs, log := s.log.(timeouts := t.log.timeouts))
    ensures t.regs == s.regs.(running := t.regs.running, countdown := t.regs.countdown, latch := t.regs.latch)
  {
    if !s.regs.running then s
    else if s.regs.countdown > 0 then s.(regs := s.regs.(countdown := s.regs.countdown - 1))
    else if s.regs.mode.Periodic? then
      s.(regs := s.regs.(latch := true, countdown := s.regs.reload), log := s.log.(timeouts := s.log.timeouts + 1))
    else s.(regs := s.regs.(latch := true, running := false), log := s.log.(timeouts := s.log.timeouts + 1))
  }

  /** The line takes its source's level; a rising edge pends even while the ISR is active. */
  function DriveLine(s: Gpt): (t: Gpt)
    ensures t == s.(nvic := s.nvic.(line := t.nvic.line, pending := t.nvic.pending))
    ensures t.nvic.line <==> s.regs.latch && s.regs.unmasked
  {
    var level := s.regs.latch && s.regs.unmasked;
    s.(nvic := s.nvic.(line := level, pending := s.nvic.pending || (level && !s.nvic.line)))
  }

  function IsrAdvance(s: Gpt): (t: Gpt)
    ensures t == s.(regs := s.regs.(latch := t.regs.latch), nvic := t.nvic, isr := t.isr, log := t.log)
    ensures t.nvic == s.nvic.(line := t.nvic.line, pending := t.nvic.pending)
    ensures t.log == s.log.(count := t.log.count, total := t.log.total)
  {
    match s.isr
    case Inactive => s
    case AtClear => s.(regs := s.regs.(latch := false), isr := AtSettle)
    case AtSettle => DriveLine(s).(isr := AtCount)
    case AtCount => s.(log := s.log.(count := Wrap(s.log.count + 1), total := s.log.total + 1), isr := Inactive)
  }

  function StopAdvance(s: Gpt): (t: Gpt)
    requires s.fg.Stopping?
    ensures t == s.(regs := t.regs, nvic := t.nvic, fg := t.fg, log := s.log.(armed := t.log.armed))
  {
    var who := s.fg.caller;
    match s.fg.stopPc
    case DisableNvic => s.(nvic := s.nvic.(disabling := true), fg := Stopping(Barrier, who))
    case Barrier => s.(nvic := s.nvic.(enabled := false, disabling := false), fg := Stopping(StopCounting, who))
    case StopCounting => s.(regs := s.regs.(running := false), fg := Stopping(MaskSource, who))
    case MaskSource => s.(regs := s.regs.(unmasked := false), fg := Stopping(ClearLatch, who))
    case ClearLatch => s.(regs := s.regs.(latch := false), fg := Stopping(SettleLine, who))
    case SettleLine => DriveLine(s).(fg := Stopping(ClearPending, who))
    case ClearPending =>
      s.(nvic := s.nvic.(pending := false), log := s.log.(armed := false),
         fg := if who.Rearm? then Arming(WriteConfig, who.ticks, who.mode) else Outside)
  }

  function ArmAdvance(s: Gpt): (t: Gpt)
    requires s.fg.Arming?
    ensures t == s.(regs := t.regs, nvic := s.nvic.(enabled := t.nvic.enabled), fg := t.fg, log := t.log)
    ensures t.log.count == s.log.count && t.log.total == s.log.total
  {
    var ticks, mode := s.fg.ticks, s.fg.newMode;
    match s.fg.armPc
    case WriteConfig => s.(fg := Arming(WriteMode, ticks, mode))
    case WriteMode => s.(regs := s.regs.(mode := mode), fg := Arming(WriteReload, ticks, mode))
    case WriteReload =>
      s.(regs := s.regs.(reload := if ticks == 0 then 0 else ticks - 1), fg := Arming(UnmaskSource, ticks, mode))
    case UnmaskSource => s.(regs := s.regs.(unmasked := true), fg := Arming(EnableNvic, ticks, mode))
    case EnableNvic => s.(nvic := s.nvic.(enabled := true), fg := Arming(EnableTimer, ticks, mode))
    case EnableTimer =>
      s.(regs := s.regs.(running := true, countdown := s.regs.reload), fg := Outside,
         log := s.log.(armed := true, timeouts := 0, base := s.log.total))
  }

  function ForegroundAdvance(s: Gpt): Gpt {
    match s.fg
    case Outside => s
    case Stopping(_, _) => StopAdvance(s)
    case Arming(_, _, _) => ArmAdvance(s)
  }

  /** `arm` rejects a zero or overflowing interval before touching any register. */
  function BeginArm(s: Gpt, microseconds: u32, mode: Mode): Gpt {
    match TicksFromUs(microseconds)
    case None => s
    case Some(ticks) => if ticks == 0 then s else s.(fg := Stopping(DisableNvic, Rearm(ticks, mode)))
  }

  /** The foreground runs only while the ISR does not; a driver call starts only outside another. */
  function Step(s: Gpt, e: Event): Gpt {
    match e
    case Tick => CountDown(s)
    case Propagate => DriveLine(s)
    case Pend => if s.nvic.line && s.isr.Inactive? then s.(nvic := s.nvic.(pending := true)) else s
    case FinishDisable => if s.nvic.disabling then s.(nvic := s.nvic.(enabled := false, disabling := false)) else s
    case EnterIsr =>
      if s.nvic.pending && s.nvic.enabled && !s.primask && s.isr.Inactive?
      then s.(nvic := s.nvic.(pending := false), isr := AtClear)
      else s
    case IsrStep => IsrAdvance(s)
    case ForegroundStep => if s.isr.Inactive? then ForegroundAdvance(s) else s
    case SetMask(on) => if s.isr.Inactive? && s.fg.Outside? then s.(primask := on) else s
    case CallStop =>
      if s.isr.Inactive? && s.fg.Outside? then s.(fg := Stopping(DisableNvic, Client)) else s
    case CallArm(us, mode) =>
      if s.isr.Inactive? && s.fg.Outside? then BeginArm(s, us, mode) else s
  }

  function Run(s: Gpt, events: seq<Event>): Gpt
    decreases |events|
  {
    if events == [] then s else Step(Run(s, events[..|events| - 1]), events[|events| - 1])
  }

  /** A timer as its constructor finds it: registers hold anything, CPU interrupts are masked. */
  predicate Boot(s: Gpt) {
    && s.fg == Stopping(DisableNvic, Initializer)
    && s.primask && s.isr.Inactive?
    && !s.log.armed && !s.nvic.disabling
    && s.log.count == s.log.timeouts == s.log.total == s.log.base == 0
  }

  // ---- Invariant ----

  predicate Quiet(s: Gpt) {
    && !s.regs.running && !s.regs.latch && !s.regs.unmasked && !s.nvic.line && !s.nvic.pending && !s.nvic.enabled
    && s.isr.Inactive?
  }

  /** Nothing in the timer, on the line, in the NVIC or in the ISR still asks for service. */
  predicate Idle(s: Gpt) {
    !s.regs.latch && !s.nvic.line && !s.nvic.pending && s.isr.Inactive?
  }

  /** A timeout that is latched or being serviced, as a number of completions still to come. */
  function Owed(s: Gpt): nat {
    (if s.isr.Inactive? then 0 else 1) + (if s.regs.latch && !s.isr.AtClear? then 1 else 0)
  }

  /** Every trace of a request is backed by a timeout not yet counted. */
  predicate Live(s: Gpt) {
    && s.regs.unmasked
    && (s.regs.running ==> s.regs.countdown <= s.regs.reload)
    && (s.regs.mode.OneShot? ==> s.regs.running == (s.log.timeouts == 0))
    && (s.regs.mode.Periodic? ==> s.regs.running)
    && 0 <= Served(s) <= s.log.timeouts - Owed(s)
    && (s.regs.mode.OneShot? ==> Served(s) + Owed(s) == s.log.timeouts)
    && (s.log.timeouts > 0 ==> Served(s) + Owed(s) > 0)
    && (s.nvic.pending ==> s.nvic.line && s.regs.latch)
    && (s.isr.AtClear? ==> s.regs.latch && s.nvic.line && !s.nvic.pending)
    && (!s.isr.AtSettle? ==> s.nvic.line ==> s.regs.latch)
  }

  function StopRank(pc: StopPc): nat {
    match pc
    case DisableNvic => 0
    case Barrier => 1
    case StopCounting => 2
    case MaskSource => 3
    case ClearLatch => 4
    case SettleLine => 5
    case ClearPending => 6
  }

  function ArmRank(pc: ArmPc): nat {
    match pc
    case WriteConfig => 0
    case WriteMode => 1
    case WriteReload => 2
    case UnmaskSource => 3
    case EnableNvic => 4
    case EnableTimer => 5
  }

  predicate StopInv(s: Gpt)
    requires s.fg.Stopping?
  {
    var rank, who := StopRank(s.fg.stopPc), s.fg.caller;
    && (who.Rearm? ==> who.ticks > 0)
    && (who.Initializer? ==> s.primask && s.isr.Inactive? && !s.log.armed)
    && (rank <= 1 && !who.Initializer? ==> if s.log.armed then Live(s) else Quiet(s))
    && (s.nvic.disabling ==> rank == 1)
    && (rank >= 2 ==> s.isr.Inactive? && !s.nvic.enabled)
    && (rank >= 3 ==> !s.regs.running)
    && (rank >= 4 ==> !s.regs.unmasked)
    && (rank >= 5 ==> !s.regs.latch)
    && (rank >= 6 ==> !s.nvic.line)
  }

  predicate ArmInv(s: Gpt)
    requires s.fg.Arming?
  {
    var rank := ArmRank(s.fg.armPc);
    && s.fg.ticks > 0
    && s.isr.Inactive? && !s.nvic.disabling && !s.log.armed
    && !s.regs.running && !s.regs.latch && !s.nvic.line && !s.nvic.pending
    && s.regs.unmasked == (rank >= 4)
    && s.nvic.enabled == (rank >= 5)
    && (rank >= 2 ==> s.regs.mode == s.fg.newMode)
    && (rank >= 3 ==> s.regs.reload == s.fg.ticks - 1)
  }

  predicate OutsideInv(s: Gpt) {
    !s.nvic.disabling && if s.log.armed then Live(s) && s.nvic.enabled else Quiet(s)
  }

  predicate PhaseInv(s: Gpt) {
    match s.fg
    case Outside => OutsideInv(s)
    case Stopping(_, _) => StopInv(s)
    case Arming(_, _, _) => ArmInv(s)
  }

  predicate CountInv(s: Gpt) {
    && s.log.count == Wrap(s.log.total)
    && 0 <= Served(s) <= s.log.timeouts
    && (!s.fg.Arming? && s.regs.mode.OneShot? ==> s.log.timeouts <= 1 && (s.regs.running ==> s.log.timeouts == 0))
  }

  predicate Inv(s: Gpt) {
    CountInv(s) && PhaseInv(s)
  }

  lemma BootSatisfiesInv(s: Gpt)
    requires Boot(s)
    ensures Inv(s)
  {}

  lemma StopPreservesInv(s: Gpt)
    requires Inv(s) && s.isr.Inactive? && s.fg.Stopping?
    ensures Inv(StopAdvance(s))
  {
    match s.fg.stopPc
    case DisableNvic =>
    case Barrier =>
    case StopCounting =>
    case MaskSource =>
    case ClearLatch =>
    case SettleLine =>
    case ClearPending =>
  }

  lemma ArmPreservesInv(s: Gpt)
    requires Inv(s) && s.isr.Inactive? && s.fg.Arming?
    ensures Inv(ArmAdvance(s))
  {
    match s.fg.armPc
    case WriteConfig =>
    case WriteMode =>
    case WriteReload =>
    case UnmaskSource =>
    case EnableNvic =>
    case EnableTimer =>
  }

  lemma TickKeepsLive(s: Gpt)
    requires Live(s)
    ensures Live(CountDown(s))
  {
    if s.regs.running && s.regs.countdown == 0 {
      assert Owed(s) <= Owed(CountDown(s)) <= Owed(s) + 1;
    }
  }

  lemma TickPreservesInv(s: Gpt)
    requires Inv(s)
    ensures Inv(CountDown(s))
  {
    if s.regs.running {
      match s.fg
      case Outside => TickKeepsLive(s);
      case Stopping(_, _) => if Live(s) { TickKeepsLive(s); }
      case Arming(_, _, _) =>
    }
  }

  lemma LinePreservesInv(s: Gpt)
    requires Inv(s)
    ensures Inv(DriveLine(s)) && Inv(Step(s, Pend))
  {}

  lemma EntryPreservesInv(s: Gpt)
    requires Inv(s)
    ensures Inv(Step(s, EnterIsr)) && Inv(Step(s, FinishDisable))
  {}

  lemma WrapIncrement(n: int)
    ensures Wrap(Wrap(n) + 1) == Wrap(n + 1)
  {}

  lemma IsrKeepsLive(s: Gpt)
    requires Live(s)
    ensures Live(IsrAdvance(s))
  {}

  lemma IsrPreservesInv(s: Gpt)
    requires Inv(s)
    ensures Inv(IsrAdvance(s))
  {
    if !s.isr.Inactive? {
      assert Live(s);
      IsrKeepsLive(s);
      WrapIncrement(s.log.total);
    }
  }

  lemma CallPreservesInv(s: Gpt, e: Event)
    requires Inv(s) && (e.SetMask? || e.CallStop? || e.CallArm?)
    ensures Inv(Step(s, e))
  {}

  lemma StepPreservesInv(s: Gpt, e: Event)
    requires Inv(s)
    ensures Inv(Step(s, e))
  {
    match e
    case Tick => TickPreservesInv(s);
    case Propagate => LinePreservesInv(s);
    case Pend => LinePreservesInv(s);
    case FinishDisable => EntryPreservesInv(s);
    case EnterIsr => EntryPreservesInv(s);
    case IsrStep => IsrPreservesInv(s);
    case ForegroundStep =>
      if s.isr.Inactive? {
        match s.fg
        case Outside =>
        case Stopping(_, _) => StopPreservesInv(s);
        case Arming(_, _, _) => ArmPreservesInv(s);
      }
    case SetMask(_) => CallPreservesInv(s, e);
    case CallStop => CallPreservesInv(s, e);
    case CallArm(_, _) => CallPreservesInv(s, e);
  }

  lemma {:induction false} RunPreservesInv(s: Gpt, events: seq<Event>)
    requires Inv(s)
    ensures Inv(Run(s, events))
    decreases |events|
  {
    if events == [] {
    } else {
      RunPreservesInv(s, events[..|events| - 1]);
      StepPreservesInv(Run(s, events[..|events| - 1]), events[|events| - 1]);
    }
  }
}
