/** The test-run acceptor: one loop over the runner's output lines, and the language it accepts. */
module SuiteGrammar {
  import opened Wrappers

  /** The strings the runner tells apart, as keys or values, each named for its spelling; all others alike. */
  datatype Text =
    | TypeWord | EventWord | NameWord | StdoutWord | TestCountWord
    | PassedWord | FailedWord | IgnoredWord
    | SuiteWord | TestWord | StartedWord | OkWord
    | OtherText(text: string)

  datatype Json =
    | JNull
    | JBool(truth: bool)
    | JInt(number: int)
    | JFloat(digits: string)
    | JString(text: Text)
    | JArray(items: seq<Json>)
    | JObject(fields: map<Text, Json>)

  /** A stdout line: ordinary text, or text starting with `{` or `[` that is or is not JSON. */
  datatype Line = Diagnostic | Malformed | Value(json: Json)

  datatype Reason =
    | MalformedEvent
    | NotAnObject
    | MissingName
    | BadFailureOutput
    | UnsupportedEvent
    | AfterCompletion
    | TestBeforeStart
    | RepeatedStart
    | BadTestCount
    | CompletionWithoutStart
    | BadCounts
    | CountMismatch
    | OutcomeMismatch

  datatype Result<+T> = Ok(value: T) | Error(reason: Reason)

  type Event = map<Text, Json>

  /** `dict.get`: a missing key reads as null. */
  function Get(event: Event, key: Text): Json {
    if key in event then event[key] else JNull
  }

  function TestEvent(line: Line): Result<Option<Event>> {
    match line
    case Diagnostic => Ok(None)
    case Malformed => Error(MalformedEvent)
    case Value(json) =>
      if !json.JObject? then Error(NotAnObject)
      else
        var event := json.fields;
        var kind, state := Get(event, TypeWord), Get(event, EventWord);
        if kind == JString(SuiteWord) && state in [JString(StartedWord), JString(OkWord), JString(FailedWord)] then
          Ok(Some(event))
        else if kind == JString(TestWord)
                && state in [JString(StartedWord), JString(OkWord), JString(FailedWord), JString(IgnoredWord)] then
          if !Get(event, NameWord).JString? then Error(MissingName)
          else if StdoutWord in event && !event[StdoutWord].JString? then Error(BadFailureOutput)
          else Ok(Some(event))
        else Error(UnsupportedEvent)
  }

  datatype Suite = Suite(passed: nat, failed: nat, ignored: nat)

  /** Python's `type(x) is int`, which excludes booleans, and nonnegative. */
  predicate IsCount(json: Json) {
    json.JInt? && json.number >= 0
  }

  /** The loop's variables. */
  datatype Scan = Scan(expected: Option<nat>, result: Option<Suite>)

  const START := Scan(None, None)

  function ScanEvent(st: Scan, event: Event): Result<Scan> {
    if st.result.Some? then Error(AfterCompletion)
    else if Get(event, TypeWord) == JString(TestWord) then
      if st.expected.None? then Error(TestBeforeStart) else Ok(st)
    else if Get(event, EventWord) == JString(StartedWord) then
      if st.expected.Some? then Error(RepeatedStart)
      else if !IsCount(Get(event, TestCountWord)) then Error(BadTestCount)
      else Ok(st.(expected := Some(Get(event, TestCountWord).number)))
    else if st.expected.None? then Error(CompletionWithoutStart)
    else
      var passed, failed, ignored := Get(event, PassedWord), Get(event, FailedWord), Get(event, IgnoredWord);
      if !(IsCount(passed) && IsCount(failed) && IsCount(ignored)) then Error(BadCounts)
      else if passed.number + failed.number + ignored.number != st.expected.value then Error(CountMismatch)
      else if (Get(event, EventWord) == JString(OkWord)) != (failed.number == 0) then Error(OutcomeMismatch)
      else Ok(st.(result := Some(Suite(passed.number, failed.number, ignored.number))))
  }

  function ScanLine(st: Scan, line: Line): Result<Scan> {
    match TestEvent(line)
    case Error(reason) => Error(reason)
    case Ok(None) => Ok(st)
    case Ok(Some(event)) => ScanEvent(st, event)
  }

  datatype Scanned = Fine(st: Scan) | Raised(line: nat, reason: Reason)

  /** The loop body for line `number`. */
  function ScanNext(before: Scanned, number: nat, line: Line): Scanned {
    if before.Raised? then before
    else
      match ScanLine(before.st, line)
      case Error(reason) => Raised(number, reason)
      case Ok(st) => Fine(st)
  }

  function ScanAll(lines: seq<Line>): Scanned
    decreases |lines|
  {
    if lines == [] then Fine(START)
    else ScanNext(ScanAll(lines[..|lines| - 1]), |lines|, lines[|lines| - 1])
  }

  datatype Outcome = Returned(suite: Option<Suite>) | Failed(line: nat, reason: Reason)

  function SuiteResult(lines: seq<Line>): Outcome {
    match ScanAll(lines)
    case Fine(st) => Returned(st.result)
    case Raised(line, reason) => Failed(line, reason)
  }

  lemma {:induction false} RaisedPrefix(lines: seq<Line>, k: nat)
    requires k <= |lines| && ScanAll(lines[..k]).Raised?
    ensures ScanAll(lines) == ScanAll(lines[..k])
    decreases |lines|
  {
    if k == |lines| {
      assert lines[..k] == lines;
    } else {
      assert lines[..|lines| - 1][..k] == lines[..k];
      RaisedPrefix(lines[..|lines| - 1], k);
    }
  }

  method ComputeSuiteResult(lines: seq<Line>) returns (outcome: Outcome)
    ensures outcome == SuiteResult(lines)
  {
    var expected: Option<nat>, result: Option<Suite> := None, None;
    for i := 0 to |lines|
      invariant ScanAll(lines[..i]) == Fine(Scan(expected, result))
    {
      assert lines[..i + 1][..i] == lines[..i];
      var event := TestEvent(lines[i]);
      if event.Error? {
        RaisedPrefix(lines, i + 1);
        return Failed(i + 1, event.reason);
      }
      if event.value.None? {
        continue;
      }
      var next := ScanEvent(Scan(expected, result), event.value.value);
      if next.Error? {
        RaisedPrefix(lines, i + 1);
        return Failed(i + 1, next.reason);
      }
      expected, result := next.value.expected, next.value.result;
    }
    assert lines[..|lines|] == lines;
    outcome := Returned(result);
  }

  // ---- The language ----

  /** The line is an object with that member. */
  predicate Has(line: Line, key: Text, value: Json) {
    && line.Value? && line.json.JObject?
    && key in line.json.fields && line.json.fields[key] == value
  }

  /** A test in one of its states, whatever else the object holds. */
  predicate ReportsTest(line: Line) {
    && Has(line, TypeWord, JString(TestWord))
    && (|| Has(line, EventWord, JString(StartedWord)) || Has(line, EventWord, JString(OkWord))
        || Has(line, EventWord, JString(FailedWord)) || Has(line, EventWord, JString(IgnoredWord)))
  }

  predicate NamesTest(line: Line)
    requires ReportsTest(line)
  {
    NameWord in line.json.fields && line.json.fields[NameWord].JString?
  }

  /** A named test in one of its states, any output being a string. */
  predicate IsTest(line: Line) {
    && ReportsTest(line) && NamesTest(line)
    && (StdoutWord in line.json.fields ==> line.json.fields[StdoutWord].JString?)
  }

  /** A suite start announcing `n` tests. */
  predicate IsStart(line: Line, n: nat) {
    && Has(line, TypeWord, JString(SuiteWord)) && Has(line, EventWord, JString(StartedWord))
    && Has(line, TestCountWord, JInt(n))
  }

  /** A summary that adds up to `n` and whose verdict agrees with its failures. */
  predicate IsCompletion(line: Line, n: nat, s: Suite) {
    && Has(line, TypeWord, JString(SuiteWord))
    && Has(line, EventWord, JString(if s.failed == 0 then OkWord else FailedWord))
    && Has(line, PassedWord, JInt(s.passed)) && Has(line, FailedWord, JInt(s.failed))
    && Has(line, IgnoredWord, JInt(s.ignored))
    && s.passed + s.failed + s.ignored == n
  }

  function Events(lines: seq<Line>): seq<Line>
    decreases |lines|
  {
    if lines == [] then []
    else
      var last := lines[|lines| - 1];
      Events(lines[..|lines| - 1]) + if last.Diagnostic? then [] else [last]
  }

  /** A start announcing `n` tests, then only test events. */
  predicate Started(events: seq<Line>, n: nat) {
    |events| >= 1 && IsStart(events[0], n) && forall k | 1 <= k < |events| :: IsTest(events[k])
  }

  predicate Finished(events: seq<Line>, n: nat, s: Suite) {
    |events| >= 2 && Started(events[..|events| - 1], n) && IsCompletion(events[|events| - 1], n, s)
  }

  /** One whole suite, with diagnostics anywhere. */
  ghost predicate Complete(lines: seq<Line>, s: Suite) {
    exists n: nat :: Finished(Events(lines), n, s)
  }

  /** No suite yet, or one still running. */
  ghost predicate Open(lines: seq<Line>) {
    Events(lines) == [] || exists n: nat :: Started(Events(lines), n)
  }

  /** Some continuation completes a suite. */
  ghost predicate Viable(lines: seq<Line>) {
    exists rest: seq<Line>, s: Suite :: Complete(lines + rest, s)
  }

  /** What the loop's variables say about the events read. */
  predicate Describes(events: seq<Line>, st: Scan) {
    match st
    case Scan(None, None) => events == []
    case Scan(Some(n), None) => Started(events, n)
    case Scan(Some(n), Some(s)) => Finished(events, n, s)
    case Scan(None, Some(_)) => false
  }

  /** One event extends the described prefix exactly as the loop body extends its variables. */
  lemma EventExtends(events: seq<Line>, st: Scan, last: Line)
    requires Describes(events, st) && !last.Diagnostic?
    ensures ScanLine(st, last).Ok? ==> Describes(events + [last], ScanLine(st, last).value)
  {
    var longer := events + [last];
    assert longer[..|events|] == events && longer[|events|] == last;
    if st.expected.Some? && st.result.None? {
      assert longer[0] == events[0];
    }
  }

  /** Whatever describes a nonempty event sequence arises from what described it one event earlier. */
  lemma EventRetracts(events: seq<Line>, last: Line, st: Scan) returns (before: Scan)
    requires Describes(events + [last], st) && !last.Diagnostic?
    ensures Describes(events, before) && ScanLine(before, last) == Ok(st)
  {
    var longer := events + [last];
    assert longer[..|events|] == events && longer[|events|] == last;
    match st
    case Scan(Some(n), None) =>
      if events == [] {
        before := START;
      } else {
        before := st;
        forall k | 1 <= k < |events| ensures IsTest(events[k]) {
          assert longer[k] == events[k];
        }
        assert longer[0] == events[0];
        assert IsTest(longer[|events|]);
      }
    case Scan(Some(n), Some(_)) =>
      before := Scan(Some(n), None);
  }

  lemma {:induction false} FineMeansDescribed(lines: seq<Line>)
    ensures ScanAll(lines).Fine? ==> Describes(Events(lines), ScanAll(lines).st)
    decreases |lines|
  {
    if lines == [] {
    } else {
      var prefix, last := lines[..|lines| - 1], lines[|lines| - 1];
      FineMeansDescribed(prefix);
      if ScanAll(prefix).Fine? {
        if last.Diagnostic? {
          assert Events(lines) == Events(prefix);
        } else {
          EventExtends(Events(prefix), ScanAll(prefix).st, last);
        }
      }
    }
  }

  lemma {:induction false} DescribedMeansFine(lines: seq<Line>, st: Scan)
    requires Describes(Events(lines), st)
    ensures ScanAll(lines) == Fine(st)
    decreases |lines|
  {
    if lines == [] {
    } else {
      var prefix, last := lines[..|lines| - 1], lines[|lines| - 1];
      if last.Diagnostic? {
        assert Events(lines) == Events(prefix);
        DescribedMeansFine(prefix, st);
      } else {
        var before := EventRetracts(Events(prefix), last, st);
        DescribedMeansFine(prefix, before);
      }
    }
  }

  // ---- Main results ----

  /** A suite is returned exactly for the transcripts of the language, and it is that suite. */
  lemma ReturnsSuiteExactly(lines: seq<Line>, s: Suite)
    ensures SuiteResult(lines) == Returned(Some(s)) <==> Complete(lines, s)
  {
    FineMeansDescribed(lines);
    forall n: nat | Finished(Events(lines), n, s) ensures ScanAll(lines) == Fine(Scan(Some(n), Some(s))) {
      DescribedMeansFine(lines, Scan(Some(n), Some(s)));
    }
  }

  /** Nothing is returned exactly for an empty transcript or an unfinished suite. */
  lemma ReturnsNothingExactly(lines: seq<Line>)
    ensures SuiteResult(lines) == Returned(None) <==> Open(lines)
  {
    FineMeansDescribed(lines);
    if Events(lines) == [] {
      DescribedMeansFine(lines, START);
    }
    forall n: nat | Started(Events(lines), n) ensures ScanAll(lines) == Fine(Scan(Some(n), None)) {
      DescribedMeansFine(lines, Scan(Some(n), None));
    }
  }

  /** A start and an all-passed completion for `n` tests. */
  lemma Witnesses(n: nat) returns (start: Line, pass: Line)
    ensures IsStart(start, n) && IsCompletion(pass, n, Suite(n, 0, 0))
  {
    start := Value(JObject(map[TypeWord := JString(SuiteWord), EventWord := JString(StartedWord),
                               TestCountWord := JInt(n)]));
    pass := Value(JObject(map[TypeWord := JString(SuiteWord), EventWord := JString(OkWord),
                              PassedWord := JInt(n), FailedWord := JInt(0), IgnoredWord := JInt(0)]));
  }

  lemma EventsAppend(lines: seq<Line>, last: Line)
    ensures Events(lines + [last]) == Events(lines) + if last.Diagnostic? then [] else [last]
  {
    assert (lines + [last])[..|lines|] == lines;
  }

  lemma CompletionCompletes(lines: seq<Line>, last: Line, n: nat, s: Suite)
    requires Started(Events(lines), n) && IsCompletion(last, n, s)
    ensures Complete(lines + [last], s)
  {
    EventsAppend(lines, last);
    var events := Events(lines) + [last];
    assert events[..|events| - 1] == Events(lines);
    assert Finished(events, n, s);
  }

  lemma StartStarts(lines: seq<Line>, first: Line, n: nat)
    requires Events(lines) == [] && IsStart(first, n)
    ensures Started(Events(lines + [first]), n)
  {
    EventsAppend(lines, first);
  }

  lemma StartedIsViable(lines: seq<Line>, n: nat)
    requires Started(Events(lines), n)
    ensures Viable(lines)
  {
    var _, pass := Witnesses(n);
    CompletionCompletes(lines, pass, n, Suite(n, 0, 0));
  }

  lemma PrefixIsViable(lines: seq<Line>, more: seq<Line>)
    requires Viable(lines + more)
    ensures Viable(lines)
  {
    var rest, s :| Complete(lines + more + rest, s);
    assert lines + more + rest == lines + (more + rest);
  }

  lemma EmptyIsViable(lines: seq<Line>)
    requires Events(lines) == []
    ensures Viable(lines)
  {
    var start, _ := Witnesses(0);
    StartStarts(lines, start, 0);
    StartedIsViable(lines + [start], 0);
    PrefixIsViable(lines, [start]);
  }

  lemma DescribedIsViable(lines: seq<Line>, st: Scan)
    requires Describes(Events(lines), st)
    ensures Viable(lines)
  {
    match st
    case Scan(None, None) => EmptyIsViable(lines);
    case Scan(Some(n), None) => StartedIsViable(lines, n);
    case Scan(Some(n), Some(s)) =>
      assert Complete(lines, s);
      assert lines + [] == lines;
  }

  /** The loop has not raised exactly while the lines read can still be completed. */
  lemma FineExactlyWhileViable(lines: seq<Line>)
    ensures ScanAll(lines).Fine? <==> Viable(lines)
  {
    if ScanAll(lines).Fine? {
      FineMeansDescribed(lines);
      DescribedIsViable(lines, ScanAll(lines).st);
    }
    forall rest: seq<Line>, s: Suite | Complete(lines + rest, s) ensures ScanAll(lines).Fine? {
      ReturnsSuiteExactly(lines + rest, s);
      assert (lines + rest)[..|lines|] == lines;
      if ScanAll(lines).Raised? {
        RaisedPrefix(lines + rest, |lines|);
      }
    }
  }

  lemma {:induction false} RaisedLine(lines: seq<Line>)
    ensures ScanAll(lines).Raised? ==>
              var k := ScanAll(lines).line;
              1 <= k <= |lines| && ScanAll(lines[..k - 1]).Fine? && ScanAll(lines[..k]) == ScanAll(lines)
    decreases |lines|
  {
    if lines == [] {
    } else {
      var prefix := lines[..|lines| - 1];
      RaisedLine(prefix);
      if ScanAll(prefix).Raised? {
        var k := ScanAll(prefix).line;
        assert prefix[..k] == lines[..k] && prefix[..k - 1] == lines[..k - 1];
      } else {
        assert lines[..|lines|] == lines;
      }
    }
  }

  /** Otherwise it raises, and at the first line that cannot be part of any complete suite. */
  lemma RaisesAtFirstUnviableLine(lines: seq<Line>, k: nat)
    ensures SuiteResult(lines).Failed? && SuiteResult(lines).line == k <==>
            1 <= k <= |lines| && Viable(lines[..k - 1]) && !Viable(lines[..k])
  {
    RaisedLine(lines);
    if 1 <= k <= |lines| {
      FineExactlyWhileViable(lines[..k - 1]);
      FineExactlyWhileViable(lines[..k]);
      if Viable(lines[..k - 1]) && !Viable(lines[..k]) {
        RaisedPrefix(lines, k);
        RaisedLine(lines[..k]);
        var j := ScanAll(lines).line;
        if j < k {
          assert lines[..k][..j] == lines[..k - 1][..j];
          RaisedPrefix(lines[..k - 1], j);
        }
      }
    }
  }

  predicate HasCount(line: Line, key: Text) {
    line.Value? && line.json.JObject? && key in line.json.fields && IsCount(line.json.fields[key])
  }

  predicate IsSuiteStart(line: Line) {
    Has(line, TypeWord, JString(SuiteWord)) && Has(line, EventWord, JString(StartedWord))
  }

  predicate IsSuiteEnd(line: Line) {
    && Has(line, TypeWord, JString(SuiteWord))
    && (Has(line, EventWord, JString(OkWord)) || Has(line, EventWord, JString(FailedWord)))
  }

  predicate HasCounts(line: Line) {
    HasCount(line, PassedWord) && HasCount(line, FailedWord) && HasCount(line, IgnoredWord)
  }

  function Total(line: Line): int
    requires HasCounts(line)
  {
    line.json.fields[PassedWord].number + line.json.fields[FailedWord].number + line.json.fields[IgnoredWord].number
  }

  /** What is wrong with a line by itself, in words of the object it holds. */
  predicate Faulty(line: Line, reason: Reason) {
    match reason
    case MalformedEvent => line.Malformed?
    case NotAnObject => line.Value? && !line.json.JObject?
    case UnsupportedEvent =>
      line.Value? && line.json.JObject? && !IsSuiteStart(line) && !IsSuiteEnd(line) && !ReportsTest(line)
    case MissingName => ReportsTest(line) && !NamesTest(line)
    case BadFailureOutput =>
      ReportsTest(line) && NamesTest(line)
      && StdoutWord in line.json.fields && !line.json.fields[StdoutWord].JString?
    case _ => false
  }

  /** What is wrong with a line after the events before it. */
  predicate Misplaced(st: Scan, line: Line, reason: Reason) {
    match reason
    case AfterCompletion => st.result.Some? && (IsTest(line) || IsSuiteStart(line) || IsSuiteEnd(line))
    case TestBeforeStart => st == START && IsTest(line)
    case CompletionWithoutStart => st == START && IsSuiteEnd(line)
    case BadTestCount => st == START && IsSuiteStart(line) && !HasCount(line, TestCountWord)
    case RepeatedStart => st.expected.Some? && st.result.None? && IsSuiteStart(line)
    case BadCounts => st.expected.Some? && st.result.None? && IsSuiteEnd(line) && !HasCounts(line)
    case CountMismatch =>
      st.expected.Some? && st.result.None? && IsSuiteEnd(line) && HasCounts(line) && Total(line) != st.expected.value
    case OutcomeMismatch =>
      && st.expected.Some? && st.result.None? && IsSuiteEnd(line) && HasCounts(line) && Total(line) == st.expected.value
      && (Has(line, EventWord, JString(OkWord)) <==> line.json.fields[FailedWord].number != 0)
    case _ => false
  }

  lemma FaultOfLine(line: Line, reason: Reason)
    ensures TestEvent(line) == Error(reason) <==> Faulty(line, reason)
  {}

  lemma FaultOfPlace(st: Scan, line: Line, reason: Reason)
    requires st.result.Some? ==> st.expected.Some?
    requires TestEvent(line).Ok?
    ensures ScanLine(st, line) == Error(reason) <==> Misplaced(st, line, reason)
  {
    FaultOfLine(line, reason);
  }

  /** A failure names what is wrong: the line's own fault, or else its place after the events before it, as those
      events are described without the loop. */
  lemma ReasonIsRight(lines: seq<Line>, k: nat, reason: Reason) returns (st: Scan)
    requires SuiteResult(lines) == Failed(k, reason)
    ensures 1 <= k <= |lines|
    ensures Describes(Events(lines[..k - 1]), st)
    ensures Faulty(lines[k - 1], reason) || Misplaced(st, lines[k - 1], reason)
  {
    RaisedLine(lines);
    var before, line := lines[..k - 1], lines[k - 1];
    FineMeansDescribed(before);
    st := ScanAll(before).st;
    assert lines[..k][..k - 1] == before;
    assert ScanLine(st, line) == Error(reason);
    FaultOfLine(line, reason);
    if TestEvent(line).Ok? {
      FaultOfPlace(st, line, reason);
    }
  }

  lemma {:induction false} NoiseChangesNothing(lines: seq<Line>, noise: seq<Line>)
    requires forall line <- noise :: line.Diagnostic?
    ensures ScanAll(lines + noise) == ScanAll(lines)
    decreases |noise|
  {
    if noise == [] {
      assert lines + noise == lines;
    } else {
      var last := |noise| - 1;
      NoiseChangesNothing(lines, noise[..last]);
      assert (lines + noise)[..|lines + noise| - 1] == lines + noise[..last];
    }
  }

  /** A failure past the first `at` lines moves down by `extra`. */
  function Shifted(s: Scanned, at: nat, extra: nat): Scanned {
    if s.Raised? && s.line > at then Raised(s.line + extra, s.reason) else s
  }

  lemma NextShifts(before: Scanned, number: nat, line: Line, at: nat, extra: nat)
    requires number > at
    ensures ScanNext(Shifted(before, at, extra), number + extra, line)
         == Shifted(ScanNext(before, number, line), at, extra)
  {
    if before.Fine? {
      var next := ScanLine(before.st, line);
      assert ScanNext(before, number, line) == if next.Error? then Raised(number, next.reason) else Fine(next.value);
    }
  }

  lemma {:induction false} ScanWithNoise(before: seq<Line>, noise: seq<Line>, after: seq<Line>)
    requires forall line <- noise :: line.Diagnostic?
    ensures ScanAll(before + noise + after) == Shifted(ScanAll(before + after), |before|, |noise|)
    decreases |after|
  {
    var noisy, plain := before + noise + after, before + after;
    if after == [] {
      assert noisy == before + noise && plain == before;
      NoiseChangesNothing(before, noise);
      RaisedLine(before);
    } else {
      var last := |after| - 1;
      ScanWithNoise(before, noise, after[..last]);
      assert noisy[..|noisy| - 1] == before + noise + after[..last] && noisy[|noisy| - 1] == after[last];
      assert plain[..|plain| - 1] == before + after[..last] && plain[|plain| - 1] == after[last];
      NextShifts(ScanAll(before + after[..last]), |plain|, after[last], |before|, |noise|);
    }
  }

  /** Diagnostic lines inserted anywhere change nothing but the line number of a failure after them, which moves
      down by as many lines as were inserted. */
  lemma DiagnosticsAreTransparent(before: seq<Line>, noise: seq<Line>, after: seq<Line>)
    requires forall line <- noise :: line.Diagnostic?
    ensures var noisy, plain := SuiteResult(before + noise + after), SuiteResult(before + after);
            if plain.Failed? && plain.line > |before| then noisy == Failed(plain.line + |noise|, plain.reason)
            else noisy == plain
  {
    ScanWithNoise(before, noise, after);
  }
}
