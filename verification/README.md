# Direct Line: verified models

Dafny models of the firmware drivers and the hardware-test runner of Direct Line (CC1354P10), with proofs
about every run rather than one call. `dafny verify dfyconfig.toml` checks the whole project.

| files | subject |
|---|---|
| `TimerMachine`, `TimerProtocol`, `TimerTicks`, `TimerBringup`, `TimerBank`, `TimerDriver` | the GPT interrupt timers: foreground register sequences, counting hardware, interrupt line, NVIC and ISR, interleaved step by step |
| `Word32`, `Uart`, `Baud` | wrapping 32-bit time, the bounded UART write over a draining FIFO, the baud divisor |
| `SuiteGrammar`, `Verdict`, `StreamSplit` | the test runner: event acceptor, exit status, two-channel stream splitter |
| `Startup`, `Echo`, `Priorities`, `Gpio`, `HfClock` | memory initialisation, the bring-up application, NVIC priority words, GPIO words, the HF clock switch |
| `Arithmetic`, `BitWord`, `Wrappers` | shared facts and types |

## How the hardware appears

- Timer: every write of `arm` and `stop` is a separate step with its own program counter. Between any two, any
  number of ticks, line changes, NVIC requests and ISR steps may occur. An event that is impossible in a state
  leaves it unchanged, so "for all event sequences" is "for all interleavings".
- The foreground advances only while the ISR does not run (one core). PRIMASK is set until the constructor
  returns and may change freely between driver calls.
- The interrupt line lags `latch && mask` by any amount; the module read and two `nop`s of `clear_timeout` make it
  catch up. The NVIC is level sensitive: it latches a request on a rising edge at any time and on a high line
  whenever the ISR is not active. A write to the interrupt clear-enable register takes effect at any moment up to
  the following barrier. Other peripheral writes take effect in order.
- History that the chip does not keep (hardware timeouts, unbounded completion totals, bytes on the wire, true
  time) is carried in the state so that properties can mention it; no driver decision reads it.
- The timer's epoch results allow every event that does not end the epoch: ticks, line, NVIC and ISR steps, mask
  changes and refused requests.
- The UART and the counter run against a given sequence of polls: how many ticks pass before each check and how
  many bytes leave the FIFO around each access. A write or wait still polling when the sequence ends is reported as
  such, so a result for every sequence is a result for every moment of every run.
- The HF clock call is five accesses, with crystal readiness coming and going and handlers running between them
  unless masked. The ROM clock switch is assumed to return with the crystal selected; a handler leaves PRIMASK as
  it found it.

## Where the code and its documentation differ

- `write_timeout` asks for "polling within one wrap" (firmware/uart.rs:159; firmware/STARTUP.md:289). That is too
  weak: one tick short of the timeout, a gap that lands on the wrap hides the expiry. `Uart.PollingGap` gives the
  exact bound, 2^32 - timeout ticks, and `Uart.LateByte` is a run at one tick more that accepts a byte after the
  time is up; half a wrap always suffices because of the guard at firmware/uart.rs:166.
- The UART is said to use "the nearest representable baud" (firmware/uart.rs:79). `baud_divisors` chooses the
  nearest divisor, as firmware/STARTUP.md:294 says. `Baud.NotNearestBaud` is a rate where these differ, and
  `Baud.NearestBaudExactly` says for which rates they agree.

## Model

| member | source | states |
|---|---|---|
| TimerMachine.RunPreservesInv | firmware/timer.rs:159-224 | from any state satisfying the protocol invariant, every interleaving keeps it; in particular each trace of a request is backed by an uncounted timeout |
| TimerProtocol.ArmAcceptance | firmware/timer.rs:12-14 | `arm` is accepted exactly for 1 to 89,478,485 microseconds, carrying 48 ticks each; otherwise nothing at all changes |
| TimerProtocol.StopReturnsQuiet | firmware/timer.rs:179-195 | in every interleaving with counting, line, NVIC and ISR, the step that returns from `stop`, to the client, to the constructor or into `arm`, leaves the timer stopped and its latch, mask, line, enable and pending bits clear |
| TimerProtocol.NoServiceWhileReconfiguring | firmware/timer.rs:163-187 | from the barrier in `stop` to the enable write in `arm` no event changes the acknowledgement count |
| TimerProtocol.CountFrozenUntilArm | firmware/timer.rs:179-203 | once stopped, whatever happens short of a successful `arm`, the timer stays clear and its count unchanged |
| TimerProtocol.Accounting | firmware/timer.rs:197-224 | across any stops and rearms the count is total completions modulo 2^32, and the current epoch never has more completions than timeouts |
| TimerProtocol.EpochStartsClean | firmware/timer.rs:163-176 | the enable write starts counting from the requested interval and mode with nothing outstanding, so no completion is inherited |
| TimerProtocol.OneShotExactlyOnce | firmware/timer.rs:153-177 | a one-shot completes at most once, and whenever nothing is outstanding the count is the armed count, plus one exactly if it has expired |
| TimerProtocol.NoTimeoutLost | firmware/timer.rs:205-224 | once a timeout is latched or in service, no quiescent state of the epoch is reached without a further completion, whatever is masked, unmasked or refused meanwhile |
| TimerProtocol.EveryServiceRunDrains | firmware/timer.rs:205-224 | with interrupts unmasked and no further tick, every schedule of line, NVIC and ISR steps makes at most eight changes and can stop changing only at quiescence, every owed completion counted once |
| TimerProtocol.OutstandingTimeoutsDrain | firmware/timer.rs:205-224 | with interrupts unmasked some schedule of at most eight steps reaches quiescence, every owed completion counted once |
| TimerProtocol.SomeRunServes | firmware/timer.rs:129-224 | from any reset state there is a run that constructs, arms any acceptable interval in either mode, expires and is served exactly once |
| TimerTicks.TimeoutsAfterArm | firmware/timer.rs:159-177 | n ticks after enabling, under every interleaving that does not end the epoch, floor(n / (48 us)) periodic timeouts or that capped at one; completions never exceed it |
| TimerTicks.OneShotRaisesCountByOne | firmware/main.rs:68-72 | the bring-up assertion, in every run that waits out the interval: the count is one higher exactly when the timeout is not still latched or in service |
| TimerTicks.EveryTimeoutAccounted | firmware/timer.rs:197-224 | exact conservation: every timeout the elapsed ticks produced has been counted, is still owed, or coalesced onto a latch not yet cleared, which a one-shot's never does |
| TimerBringup.BringupChecks | firmware/main.rs:45-73 | the whole timer sequence from reset (periodic, stop, wait, two refusals, one-shot): no more interrupts than intervals, none after the stop, refusals change nothing, and one more from the one-shot exactly when it has been served |
| TimerBank.RunProjects | firmware/timer.rs:136-145 | any mix of the four timers' steps, sharing the NVIC words through whole-word accesses, looks to each timer like a run of its own machine |
| TimerBank.StepProjects | firmware/timer.rs:136-145 | one step of a timer leaves every other timer's view exactly as it was |
| TimerBank.StoppedTimerIsolated | firmware/timer_test.rs:66-77 | a stopped timer stays clear and keeps its count whatever the other three do |
| TimerDriver.Timer.Stop | firmware/timer.rs:179-195 | the straight-line `stop` is a run of the machine made of its seven accesses in order, each preceded by exactly the given activity and the ISR's return, and ends with everything clear |
| TimerDriver.Timer.Arm | firmware/timer.rs:159-177 | the straight-line `arm` refuses without touching a register, or is such a run of thirteen accesses that starts a fresh epoch of the requested length |
| TimerDriver.Timer.ClearTimeout | firmware/timer.rs:205-215 | clearing the latch and letting the line follow, called from `stop` or from the handler, as two accesses each preceded by exactly the given activity |
| TimerDriver.Timer.Interrupt | firmware/timer.rs:217-224 | the handler is a run of three accesses between which the hardware goes on, and counts one acknowledgement |
| Word32.ElapsedIsExact | firmware/timer.rs:107-111 | wrapped elapsed time is the true one exactly when less than one wrap has passed |
| Word32.DeadlineAgreement | foundation/lib.rs:4-7 | for unbounded times the half-range comparison is right exactly in alternate half-cycles, hence whenever the difference is within [-2^31, 2^31) |
| Word32.DeadlineMatchesElapsed | foundation/lib.rs:4-7 | against an elapsed-time check with the same timeout, agreement holds exactly up to half a cycle past the deadline |
| Uart.Uart.WriteTimeout | firmware/uart.rs:156-182 | for every sequence of polls, however far apart: true time advances by exactly the gaps of the checks made, sent bytes are the accepted prefix in order, one at each unexpired poll that finds room; the polls alone decide how many that is and whether the write succeeds, times out or is still polling; and while gaps are at most 2^32 - timeout every check reads true elapsed time, no byte follows an expired one, and a ticking counter allows at most timeout + 1 checks |
| Uart.DrainingIsAmple | firmware/uart.rs:173-179 | if a byte leaves the FIFO before each of n unexpired checks, a write of n bytes succeeds however full the FIFO was |
| Uart.Uart.TryWrite | firmware/uart.rs:120-131 | one byte is appended exactly when the FIFO had room, which never overflows even if it drains between check and write |
| Uart.Uart.TryRead | firmware/uart.rs:133-154 | exactly the oldest entry is consumed and reported as a byte if no flag is set, as its flags otherwise, with the receive status cleared; an empty FIFO changes nothing |
| Uart.PollingGap | firmware/uart.rs:156-172 | every check after an unexpired one tells the truth exactly when polls are at most 2^32 - timeout ticks apart |
| Uart.LateByte | firmware/uart.rs:156-182 | with gaps of up to 2^32 - timeout + 1 there is a run that accepts a byte after the time is up and reports success |
| Baud.AcceptedRange | firmware/uart.rs:208-224 | divisors are returned exactly for 46 to 3,000,000 baud and recombine to the rounded, representable quotient |
| Baud.NoOverflow | firmware/uart.rs:214-215 | the numerator fits 32 bits for every 32-bit request |
| Baud.NearestDivisor | firmware/uart.rs:212-217 | no divisor in 64ths is closer to the exact ratio |
| Baud.RoundingError | firmware/uart.rs:212-215 | the divisor times the request misses the scaled clock by at most half the request |
| Baud.RoundingDirection | firmware/uart.rs:212-215 | the divisor is rounded down below half a step and up from half a step on |
| Baud.Antitone | firmware/uart.rs:215 | larger requests never get larger divisors |
| Baud.BaudErrorBound | firmware/uart.rs:208-224 | the generated baud is within baud / (2 s), hence 1/128, of the request |
| Baud.NearestBaudExactly | firmware/uart.rs:78-79 | the generated baud is the nearest representable one if and only if the division rounds up or its remainder r and floor f satisfy (2 f + 1) r <= f baud |
| Baud.NotNearestBaud | firmware/uart.rs:78-79 | at 2,976,800 baud it is not |
| SuiteGrammar.ComputeSuiteResult | tools/debug/hil.py:118-154 | the loop over lines with its two variables computes the scan all results below are about, with the failing line's number |
| SuiteGrammar.ReturnsSuiteExactly | tools/debug/hil.py:94-154 | a suite is returned exactly for a start, test events and one consistent completion, diagnostics anywhere, each told from the fields of its object |
| SuiteGrammar.ReturnsNothingExactly | tools/debug/hil.py:118-154 | None is returned exactly for no event or a start followed only by test events |
| SuiteGrammar.RaisesAtFirstUnviableLine | tools/debug/hil.py:118-154 | otherwise it raises, at exactly the first line that no continuation can complete |
| SuiteGrammar.ReasonIsRight | tools/debug/hil.py:94-154 | a failure names what is wrong with its line, in terms of the object on it, or with its place after the events before it |
| SuiteGrammar.DiagnosticsAreTransparent | tools/debug/hil.py:94-98 | inserting diagnostic lines anywhere leaves the outcome the same, a failure after them being reported exactly that many lines further down |
| Verdict.Execute | tools/debug/hil.py:217-251 | the report's suite, error and exit code in terms of the ending and the grammar: which complaint is made, and none exactly for a passing run or a failed suite with status 1 |
| Verdict.RunTests | tools/debug/hil.py:312-314 | exit status 0 exactly when the process exited 0 and the transcript holds one whole suite with something passed and nothing failed; in list mode exactly for a clean exit |
| StreamSplit.StreamProcess | tools/debug/output.py:54-87 | for every chunking and interleaving each file holds exactly its own channel up to an empty chunk or a terminal's closing EIO, the emitted lines are the newline split of stdout, and the ending is determined: failed exactly at the first other read error of a channel still open, timed out exactly when time is up while draining or while the child exits |
| StreamSplit.FinalLinesAreUnique | tools/debug/output.py:75-84 | the emitted lines are determined by the bytes alone, so chunk boundaries and stderr cannot change them |
| Startup.Memory.InitialiseMemory | firmware/startup.rs:230-252 | every SRAM word afterwards is its flash image, zero, the watermark or unchanged according to its region, the emergency stack, the live stack and all beyond .bss are untouched, and each pointer ends exactly at its bound |
| Startup.Memory.Start | firmware/startup.rs:226-257 | with the boot record's writes included, nothing outside the three regions and the record changes |
| Echo.Application.Bringup | firmware/main.rs:22-102 | at every moment of every run the bytes sent are a prefix of banner, verdict line and replies to the consumed entries, the verdict being that of the values read; all of it exactly when the checks passed and no write is under way or timed out, and in particular whenever each write finds room in time |
| Echo.Application.CheckTimer | firmware/main.rs:44-74 | the timer checks stop at the first of their waits and assertions that is not done, and pass exactly when all are; a silent timer is reported as far as the write gets; the status word is 2 exactly on passing |
| Echo.Application.Send | firmware/uart.rs:156-182 | what a write sends and whether it finishes, panics or is under way are decided by its polls and the FIFO it finds |
| Echo.WaitFor | firmware/poll.rs:5-14 | succeeds at exactly the first true poll within the budget, and panics exactly when the whole budget was false |
| Echo.MachineMeetsAssertions | firmware/main.rs:62-72 | the counts of any run of the timer machine through the sequence meet the program's assertions exactly when the one-shot's timeout has been served |
| Echo.Application.Loop | firmware/main.rs:80-101 | over any number of turns: one blink per changed count load, both LEDs equal to the blink count's parity, blinks never above the completions since the first sample, one waiting entry taken in each turn, none lost or reordered, only the last reply ever short, and that only by an expired check or a write under way |
| Echo.Application.EchoOne | firmware/main.rs:90-100 | the oldest entry is consumed and answered by its byte or the error line, sent as far as the polls allow |
| Priorities.PackedWordsRefineMap | firmware/interrupts.rs:115-132 | any sequence of valid calls on the packed words is the same sequence of updates of a map from interrupt to priority byte |
| Priorities.UpdateChangesOneByte | firmware/interrupts.rs:125-131 | one masked read-modify-write replaces exactly the addressed byte out of all 48 |
| Priorities.UpdateWrites | firmware/interrupts.rs:125-131 | the bits of every word: the top three of byte irq % 4 of word irq / 4 are the priority's, the five below are clear, all others are as before |
| Priorities.Nvic.SetPriority | firmware/interrupts.rs:108-132 | an out-of-range request changes nothing; otherwise the registers change in exactly the interrupt's own bits, which decode to the priority |
| Gpio.PinIsolation | firmware/gpio.rs:41-62 | under every interleaving of set, clear and toggle accesses each latch bit is the fold of its own pin's operations |
| Gpio.SchedulesAgree | firmware/gpio.rs:35-37 | only each pin's own order matters to the resulting word |
| Gpio.UnownedBits | firmware/gpio.rs:41-62 | a pin that is not addressed keeps its level |
| Gpio.Bank.ConfigureOutput | firmware/gpio.rs:13-33 | the pin ends low, routed and enabled, every other pin as before, and its driver is only turned on once it is low and routed; an invalid pin changes nothing |
| Gpio.Bank.ConfigureAll | firmware/gpio.rs:13-33 | any sequence of configurations leaves the output enables as the union of old and configured pins, each configured pin low |
| HfClock.SwitchIsSafe | firmware/clock.rs:47-91 | over all interleavings from reset of accesses, readiness, handlers and mask changes: at most one ROM switch, masked and after readiness was read, then one clearing of the override with the crystal active and interrupts masked, and no handler in between |
| HfClock.CallReturnsRight | firmware/clock.rs:68-91 | in every run a call returns with PRIMASK as it was when the call was made and says whether the crystal is the source |
| HfClock.ReadyCallSwitches | firmware/clock.rs:68-91 | in every run, a call that finds a switch pending returns true with the crystal selected and the override cleared, having made exactly one ROM switch and one clearing |
| HfClock.SwitchIsPermanent | firmware/clock.rs:62-67 | once the crystal is the source no run leaves it or repeats the ROM call |
| HfClock.Clocks.RequestHfCrystal | firmware/clock.rs:43-51 | sets the request and nothing else |
| HfClock.Clocks.TrySwitchToHfCrystal | firmware/clock.rs:68-91 | in terms of the state its status access finds: with the crystal inactive and a switch pending, the call makes its five accesses with the given activity before each, adds exactly one good ROM switch and one good clearing of the override and returns true; otherwise it makes that access only and returns false exactly when both bits were clear; the interrupt mask is as on entry |

## Left out

- TimerBank.RunProjects: combined runs are not restricted to one foreground thread and one ISR at a time; the theorem covers more runs than the core can produce.
- TimerMachine: posted writes other than the interrupt disable, and the line as a pipeline deeper than one lagging value.
- TimerMachine.Step: the `cfg` and snapshot/match options of the GPT, which the drivers leave at zero.
- Echo.Application.Bringup: the words, counts and poll results the checks read are inputs, the counts tied to the timer machine by `Echo.MachineMeetsAssertions`; the static stores after the memory check are not kept.
- Startup: setup after the boot record, the assembly prologue, and the fault and panic records, which are straight-line and terminal.
- Uart: `configure_uart`, pin routing and power-up are straight-line register writes; receive overrun is a flag on the entry that reports it.
- Gpio, Priorities: register words are sequences of 32 bits with the same masks; pulls, drive and port numbers are one routing value.
- SuiteGrammar: JSON parsing and UTF-8 decoding; a line is given as diagnostic, malformed or a value, and strings the runner does not tell apart are one kind. Error texts are one constructor each.
- Verdict: hashing, timing, report files, display and argument parsing.
- StreamSplit.StreamProcess: lines stay undecoded bytes; the wall clock is the end of the arrivals, and the child's exit within the rest is an input; process creation, terminal setup and reaping are absent.
- `command_line`, `Counter::initialize`, `rtc.rs`, `prcm.rs`, `ioc.rs`, `setup.rs`, `device.rs`: fixed sequences and tables that would add only easy members.
