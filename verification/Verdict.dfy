/** The runner's verdict: how the child's fate and its transcript become a report and an exit status. */
module Verdict {
  import opened SuiteGrammar
  import opened Wrappers

  /** How `stream_process` ended. */
  datatype Ending = Exited(status: int) | DeadlineExceeded | Interrupted | SystemError(message: string)

  datatype Complaint =
    | Deadline
    | Interruption
    | System(message: string)
    | BadTranscript(line: nat, reason: Reason)
    | Both(first: Complaint, second: Complaint)
    | ExitStatus(status: int)
    | NoPassingSuite

  datatype Report =
    Report(exitCode: Option<int>, timedOut: bool, suite: Option<Suite>, error: Option<Complaint>)

  ghost predicate CompleteWith(transcript: Option<seq<Line>>, s: Suite) {
    transcript.Some? && Complete(transcript.value, s)
  }

  /** One whole suite in which something passed and nothing failed. */
  ghost predicate PassingRun(ending: Ending, transcript: Option<seq<Line>>) {
    && ending == Exited(0) && transcript.Some?
    && exists n: nat, s: Suite ::
         Finished(Events(transcript.value), n, s) && s.passed >= 1 && s.failed == 0 && s.passed + s.ignored == n
  }

  /** One whole suite with failures, reported by the conventional exit status. */
  ghost predicate FailingRun(ending: Ending, transcript: Option<seq<Line>>) {
    ending == Exited(1) && exists s: Suite :: CompleteWith(transcript, s) && s.failed > 0
  }

  lemma PassingRunMeaning(ending: Ending, transcript: Option<seq<Line>>, suite: Option<Suite>)
    requires forall s :: suite == Some(s) <==> CompleteWith(transcript, s)
    ensures PassingRun(ending, transcript) <==>
            ending == Exited(0) && suite.Some? && suite.value.passed >= 1 && suite.value.failed == 0
    ensures FailingRun(ending, transcript) <==> ending == Exited(1) && suite.Some? && suite.value.failed > 0
  {
    if suite.Some? {
      assert CompleteWith(transcript, suite.value);
    }
    if transcript.Some? {
      forall n: nat, s: Suite | Finished(Events(transcript.value), n, s) ensures suite == Some(s) {
        assert CompleteWith(transcript, s);
      }
    }
  }

  /** What the child's ending says against the run, whatever it printed. */
  function OfEnding(ending: Ending): Option<Complaint> {
    match ending
    case Exited(_) => None
    case DeadlineExceeded => Some(Deadline)
    case Interrupted => Some(Interruption)
    case SystemError(message) => Some(System(message))
  }

  /** And what its transcript says, if it is one that no suite explains. */
  function OfTranscript(transcript: Option<seq<Line>>): Option<Complaint> {
    if transcript.Some? && SuiteResult(transcript.value).Failed? then
      var bad := SuiteResult(transcript.value);
      Some(BadTranscript(bad.line, bad.reason))
    else None
  }

  /** The error a report must carry: the ending's, the transcript's, both, or else what the exit status and the
      missing or failing suite leave to say. */
  ghost predicate Complains(error: Option<Complaint>, ending: Ending, transcript: Option<seq<Line>>, listOnly: bool) {
    var first, second := OfEnding(ending), if listOnly then None else OfTranscript(transcript);
    if first.Some? && second.Some? then error == Some(Both(first.value, second.value))
    else if first.Some? then error == first
    else if second.Some? then error == second
    else if !listOnly && (PassingRun(ending, transcript) || FailingRun(ending, transcript)) then error == None
    else if ending != Exited(0) then error == Some(ExitStatus(ending.status))
    else error == if listOnly then None else Some(NoPassingSuite)
  }

  method Execute(ending: Ending, transcript: Option<seq<Line>>, listOnly: bool) returns (report: Report)
    ensures report.timedOut == ending.DeadlineExceeded?
    ensures report.exitCode == if ending.Exited? then Some(ending.status) else None
    ensures listOnly ==> report.suite == None && (report.error.None? <==> ending == Exited(0))
    ensures !listOnly ==> forall s :: report.suite == Some(s) <==> CompleteWith(transcript, s)
    ensures !listOnly ==>
              (report.error.None? <==> PassingRun(ending, transcript) || FailingRun(ending, transcript))
    ensures Complains(report.error, ending, transcript, listOnly)
    ensures !listOnly && report.error.None? ==>
              report.suite.Some? && (report.suite.value.failed > 0 <==> FailingRun(ending, transcript))
  {
    var error: Option<Complaint>, exitCode: Option<int>, suite: Option<Suite> := None, None, None;
    match ending {
      case Exited(status) => exitCode := Some(status);
      case DeadlineExceeded => error := Some(Deadline);
      case Interrupted => error := Some(Interruption);
      case SystemError(message) => error := Some(System(message));
    }
    if !listOnly && transcript.Some? {
      var outcome := ComputeSuiteResult(transcript.value);
      match outcome {
        case Returned(s) => suite := s;
        case Failed(line, reason) =>
          var problem := BadTranscript(line, reason);
          error := Some(if error.None? then problem else Both(error.value, problem));
      }
    }
    if error.None? {
      if suite.Some? && suite.value.failed > 0 && exitCode == Some(1) {
      } else if exitCode != Some(0) {
        error := Some(ExitStatus(exitCode.value));
      } else if !listOnly && (suite.None? || suite.value.passed == 0 || suite.value.failed > 0) {
        error := Some(NoPassingSuite);
      }
    }
    report := Report(exitCode, ending.DeadlineExceeded?, suite, error);
    if !listOnly {
      forall s ensures suite == Some(s) <==> CompleteWith(transcript, s) {
        if transcript.Some? {
          ReturnsSuiteExactly(transcript.value, s);
        }
      }
      PassingRunMeaning(ending, transcript, suite);
    }
  }

  /** `main`: an error message exits 1, otherwise the suite decides. */
  function ExitCode(report: Report): int {
    if report.error.Some? then 1
    else if report.suite.Some? && report.suite.value.failed > 0 then 1
    else 0
  }

  /** Outside list mode the runner exits 0 exactly for a passing run; listing needs only a clean exit. */
  method RunTests(ending: Ending, transcript: Option<seq<Line>>, listOnly: bool) returns (code: int)
    ensures code == 0 || code == 1
    ensures !listOnly ==> (code == 0 <==> PassingRun(ending, transcript))
    ensures listOnly ==> (code == 0 <==> ending == Exited(0))
  {
    var report := Execute(ending, transcript, listOnly);
    code := ExitCode(report);
    assert PassingRun(ending, transcript) ==> !FailingRun(ending, transcript);
  }
}
