/** Four timers whose NVIC enable and pending bits share two 32-bit words, and one PRIMASK. */
module TimerBank {
  import opened BitWord
  import opened Word32
  import opened TimerMachine
  import opened TimerProtocol

  type Index = i: nat | i < 4

  /** Timer A interrupt numbers, all in NVIC bank 0. */
  function Irq(i: Index): Position {
    if i == 0 then 15 else if i == 1 then 17 else if i == 2 then 19 else 21
  }

  /** Whole-word accesses: set-enable, clear-enable and clear-pending writes, and the hardware latching a request. */
  datatype Access = Untouched | Iser0Write | Icer0Write | Icpr0Write | LatchRequest

  function EnableWord(a: Access, word: Word, mask: Word): Word {
    if a.Iser0Write? then Or(word, mask) else if a.Icer0Write? then AndNot(word, mask) else word
  }

  function PendingWord(a: Access, word: Word, mask: Word): Word {
    if a.LatchRequest? then Or(word, mask) else if a.Icpr0Write? then AndNot(word, mask) else word
  }

  predicate Rises(s: Gpt) {
    s.regs.latch && s.regs.unmasked && !s.nvic.line
  }

  function ForegroundAccess(s: Gpt): Access {
    match s.fg
    case Outside => Untouched
    case Stopping(pc, _) =>
      if pc.Barrier? then Icer0Write
      else if pc.SettleLine? && Rises(s) then LatchRequest
      else if pc.ClearPending? then Icpr0Write
      else Untouched
    case Arming(pc, _, _) => if pc.EnableNvic? then Iser0Write else Untouched
  }

  /** The NVIC access made by one step of a timer; exception entry clears its pending bit. */
  function AccessOf(s: Gpt, e: Event): Access {
    match e
    case Propagate => if Rises(s) then LatchRequest else Untouched
    case Pend => if s.nvic.line && s.isr.Inactive? then LatchRequest else Untouched
    case FinishDisable => if s.nvic.disabling then Icer0Write else Untouched
    case EnterIsr =>
      if s.nvic.pending && s.nvic.enabled && !s.primask && s.isr.Inactive? then Icpr0Write else Untouched
    case IsrStep => if s.isr.AtSettle? && Rises(s) then LatchRequest else Untouched
    case ForegroundStep => if s.isr.Inactive? then ForegroundAccess(s) else Untouched
    case _ => Untouched
  }

  /** Timer-local registers and program counters; their NVIC and PRIMASK fields are unused. */
  datatype Bank = Bank(cells: seq<Gpt>, enabled: Word, pending: Word, primask: bool)

  predicate Valid(b: Bank) {
    |b.cells| == 4
  }

  /** One timer's view of the bank. */
  function Project(b: Bank, i: Index): Gpt
    requires Valid(b)
  {
    var cell := b.cells[i];
    cell.(nvic := cell.nvic.(enabled := b.enabled[Irq(i)], pending := b.pending[Irq(i)]), primask := b.primask)
  }

  /** PRIMASK changes between driver calls and outside every ISR. */
  predicate MaskMayChange(b: Bank)
    requires Valid(b)
  {
    forall j: Index :: b.cells[j].isr.Inactive? && b.cells[j].fg.Outside?
  }

  datatype BankEvent = BankEvent(timer: Index, event: Event)

  function BankStep(b: Bank, e: BankEvent): (r: Bank)
    requires Valid(b)
    ensures Valid(r)
  {
    if e.event.SetMask? then
      if MaskMayChange(b) then b.(primask := e.event.on) else b
    else
      var s := Project(b, e.timer);
      var a, mask := AccessOf(s, e.event), Single(Irq(e.timer));
      Bank(b.cells[e.timer := Step(s, e.event)],
           EnableWord(a, b.enabled, mask), PendingWord(a, b.pending, mask), b.primask)
  }

  function BankRun(b: Bank, events: seq<BankEvent>): (r: Bank)
    requires Valid(b)
    ensures Valid(r)
    decreases |events|
  {
    if events == [] then b else BankStep(BankRun(b, events[..|events| - 1]), events[|events| - 1])
  }

  /** What timer `i` sees of one bank event. */
  function Visible(b: Bank, e: BankEvent, i: Index): seq<Event>
    requires Valid(b)
  {
    if e.event.SetMask? then
      if MaskMayChange(b) then [e.event] else []
    else if e.timer == i then [e.event] else []
  }

  function VisibleRun(b: Bank, events: seq<BankEvent>, i: Index): seq<Event>
    requires Valid(b)
    decreases |events|
  {
    if events == [] then []
    else
      var prefix := events[..|events| - 1];
      VisibleRun(b, prefix, i) + Visible(BankRun(b, prefix), events[|events| - 1], i)
  }

  /** A timer's own two NVIC bits move exactly as its word accesses say. */
  lemma StepBits(s: Gpt, e: Event)
    requires !e.SetMask?
    ensures var t, a := Step(s, e), AccessOf(s, e);
            && t.nvic.enabled == (a.Iser0Write? || (s.nvic.enabled && !a.Icer0Write?))
            && t.nvic.pending == (a.LatchRequest? || (s.nvic.pending && !a.Icpr0Write?))
            && t.primask == s.primask
  {}

  /** An event of one timer is invisible to the others; a PRIMASK change is visible to all. */
  lemma StepProjects(b: Bank, e: BankEvent, i: Index)
    requires Valid(b)
    ensures Project(BankStep(b, e), i) == Run(Project(b, i), Visible(b, e, i))
  {
    var s := Project(b, e.timer);
    assert forall x: Event :: [x][..0] == [];
    if !e.event.SetMask? {
      StepBits(s, e.event);
    }
  }

  /** Isolation: however the four timers' foreground, hardware and ISR steps are mixed, each timer's view of
      the run is a run of the single-timer machine. */
  lemma {:induction false} RunProjects(b: Bank, events: seq<BankEvent>, i: Index)
    requires Valid(b)
    ensures Project(BankRun(b, events), i) == Run(Project(b, i), VisibleRun(b, events, i))
    decreases |events|
  {
    if events == [] {
    } else {
      var prefix, e := events[..|events| - 1], events[|events| - 1];
      RunProjects(b, prefix, i);
      StepProjects(BankRun(b, prefix), e, i);
      RunConcat(Project(b, i), VisibleRun(b, prefix, i), Visible(BankRun(b, prefix), e, i));
    }
  }

  lemma {:induction false} VisibleNeverArms(b: Bank, events: seq<BankEvent>, i: Index)
    requires Valid(b)
    requires forall e <- events :: e.timer == i && e.event.CallArm? ==> !Accepts(e.event)
    ensures NeverArms(VisibleRun(b, events, i))
    decreases |events|
  {
    if events == [] {
    } else {
      VisibleNeverArms(b, events[..|events| - 1], i);
    }
  }

  /** So a timer stopped beside three busy ones stays clear and keeps its count until it is armed again. */
  lemma StoppedTimerIsolated(b: Bank, before: seq<BankEvent>, after: seq<BankEvent>, i: Index)
    requires Valid(b) && Boot(Project(b, i))
    requires var t := Project(BankRun(b, before), i); t.fg.Outside? && !t.log.armed
    requires forall e <- after :: e.timer == i && e.event.CallArm? ==> !Accepts(e.event)
    ensures var t, u := Project(BankRun(b, before), i), Project(BankRun(BankRun(b, before), after), i);
            Quiet(u) && u.log.count == t.log.count
  {
    var mid := BankRun(b, before);
    RunProjects(b, before, i);
    RunProjects(mid, after, i);
    VisibleNeverArms(mid, after, i);
    RunPreservesInv(Project(b, i), VisibleRun(b, before, i));
    DormantRun(Project(mid, i), VisibleRun(mid, after, i));
  }
}
