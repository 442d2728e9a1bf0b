/** Draining a child's stdout and stderr in whatever chunks arrive, and cutting stdout into lines. */
module StreamSplit {
  import opened Word32
  import opened Wrappers

  const NEWLINE: u8 := 10

  datatype Channel = Stdout | Stderr

  /** One ready descriptor: a chunk (empty at end of file), or a read that failed. */
  datatype Read =
    | Chunk(channel: Channel, data: seq<u8>)
    | ReadError(channel: Channel, eio: bool)

  /** An empty chunk ends its channel; so does EIO on stderr when that is a terminal, whose last writer has
      closed it. */
  predicate Ends(r: Read, channel: Channel, progress: bool) {
    r == Chunk(channel, []) || (progress && channel == Stderr && r == ReadError(Stderr, true))
  }

  /** Any other failed read is an error. */
  predicate Fails(r: Read, progress: bool) {
    r.ReadError? && !(progress && r == ReadError(Stderr, true))
  }

  datatype Ending = Exited(status: int) | TimedOut | Failed

  // ---- What each channel carried, independently of the other ----

  /** A channel is closed once one of its arrivals ended it. */
  predicate Closed(arrivals: seq<Read>, channel: Channel, progress: bool)
    decreases |arrivals|
  {
    arrivals != [] &&
    var last := arrivals[|arrivals| - 1];
    Closed(arrivals[..|arrivals| - 1], channel, progress) || Ends(last, channel, progress)
  }

  /** Its chunks up to that point, joined. */
  function Data(arrivals: seq<Read>, channel: Channel, progress: bool): seq<u8>
    decreases |arrivals|
  {
    if arrivals == [] then []
    else
      var before, last := arrivals[..|arrivals| - 1], arrivals[|arrivals| - 1];
      Data(before, channel, progress) +
      if last.Chunk? && last.channel == channel && !Closed(before, channel, progress) then last.data else []
  }

  lemma {:induction false} ClosedChannelIsComplete(arrivals: seq<Read>, k: nat, channel: Channel, progress: bool)
    requires k <= |arrivals| && Closed(arrivals[..k], channel, progress)
    ensures Closed(arrivals, channel, progress)
    ensures Data(arrivals, channel, progress) == Data(arrivals[..k], channel, progress)
    decreases |arrivals|
  {
    if k == |arrivals| {
      assert arrivals[..k] == arrivals;
    } else {
      var before := arrivals[..|arrivals| - 1];
      assert before[..k] == arrivals[..k];
      ClosedChannelIsComplete(before, k, channel, progress);
    }
  }

  /** What one more arrival adds to a channel. */
  lemma OneMore(arrivals: seq<Read>, k: nat, channel: Channel, progress: bool)
    requires k < |arrivals|
    ensures var r, now, next := arrivals[k], arrivals[..k], arrivals[..k + 1];
            && (Closed(next, channel, progress) <==>
                Closed(now, channel, progress) || Ends(r, channel, progress))
            && Data(next, channel, progress) ==
               Data(now, channel, progress) +
               if r.Chunk? && r.channel == channel && !Closed(now, channel, progress) then r.data else []
  {
    assert arrivals[..k + 1][..k] == arrivals[..k];
  }

  // ---- Lines ----

  /** Each line followed by its newline. */
  function Unlines(lines: seq<seq<u8>>): seq<u8>
    decreases |lines|
  {
    if lines == [] then [] else Unlines(lines[..|lines| - 1]) + lines[|lines| - 1] + [NEWLINE]
  }

  /** `lines` and `rest` are what splitting `text` at every newline gives. */
  predicate Splits(text: seq<u8>, lines: seq<seq<u8>>, rest: seq<u8>) {
    && text == Unlines(lines) + rest
    && NEWLINE !in rest
    && forall line <- lines :: NEWLINE !in line
  }

  /** The emitted lines once the whole of `text` has arrived: no empty last piece. */
  predicate FinalLines(text: seq<u8>, emitted: seq<seq<u8>>) {
    || Splits(text, emitted, [])
    || (emitted != [] && emitted[|emitted| - 1] != []
        && Splits(text, emitted[..|emitted| - 1], emitted[|emitted| - 1]))
  }

  lemma LastPiece(text: seq<u8>, lines: seq<seq<u8>>, pending: seq<u8>)
    requires Splits(text, lines, pending)
    ensures FinalLines(text, if pending == [] then lines else lines + [pending])
  {
    assert (lines + [pending])[..|lines|] == lines;
  }

  method FirstNewline(text: seq<u8>) returns (k: nat)
    requires NEWLINE in text
    ensures k < |text| && text[k] == NEWLINE && NEWLINE !in text[..k]
  {
    k := 0;
    while text[k] != NEWLINE
      invariant k < |text| && NEWLINE !in text[..k] && NEWLINE in text[k..]
      decreases |text| - k
    {
      assert text[k..] == [text[k]] + text[k + 1..];
      k := k + 1;
    }
  }

  lemma SplitOne(text: seq<u8>, lines: seq<seq<u8>>, pending: seq<u8>, k: nat)
    requires k < |pending| && pending[k] == NEWLINE && text == Unlines(lines) + pending
    ensures text == Unlines(lines + [pending[..k]]) + pending[k + 1..]
  {
    assert (lines + [pending[..k]])[..|lines|] == lines;
    assert pending == pending[..k] + [NEWLINE] + pending[k + 1..];
  }

  /** Emit every complete line of the pending bytes. */
  method EmitLines(emitted: seq<seq<u8>>, arrived: seq<u8>) returns (lines: seq<seq<u8>>, pending: seq<u8>)
    requires forall line <- emitted :: NEWLINE !in line
    ensures Splits(Unlines(emitted) + arrived, lines, pending)
    ensures emitted <= lines
  {
    lines, pending := emitted, arrived;
    while NEWLINE in pending
      invariant Unlines(emitted) + arrived == Unlines(lines) + pending
      invariant forall line <- lines :: NEWLINE !in line
      invariant emitted <= lines
      decreases |pending|
    {
      var k := FirstNewline(pending);
      SplitOne(Unlines(emitted) + arrived, lines, pending, k);
      lines, pending := lines + [pending[..k]], pending[k + 1..];
    }
  }

  /** The two files hold exactly what arrived, the channels left open are those not ended, and stdout
      so far is the emitted lines and the bytes still pending. */
  predicate LoopHead(arrivals: seq<Read>, progress: bool, open: set<Channel>, stdoutFile: seq<u8>,
                     stderrFile: seq<u8>, lines: seq<seq<u8>>, pending: seq<u8>)
  {
    && stdoutFile == Data(arrivals, Stdout, progress)
    && stderrFile == Data(arrivals, Stderr, progress)
    && (Stdout in open <==> !Closed(arrivals, Stdout, progress))
    && (Stderr in open <==> !Closed(arrivals, Stderr, progress))
    && Splits(stdoutFile, lines, pending)
  }

  /** The next read is an error of a channel still open. */
  predicate FailsNext(arrivals: seq<Read>, k: nat, progress: bool) {
    k < |arrivals| && !Closed(arrivals[..k], arrivals[k].channel, progress) && Fails(arrivals[k], progress)
  }

  /** Handle one arrival; the selector no longer watches a closed descriptor, so nothing is read from it. An
      error other than the terminal's own is left to the caller. */
  method Take(arrivals: seq<Read>, k: nat, progress: bool, open: set<Channel>, stdoutFile: seq<u8>,
              stderrFile: seq<u8>, lines: seq<seq<u8>>, pending: seq<u8>)
    returns (failed: bool, open': set<Channel>, stdoutFile': seq<u8>, stderrFile': seq<u8>,
             lines': seq<seq<u8>>, pending': seq<u8>)
    requires k < |arrivals|
    requires LoopHead(arrivals[..k], progress, open, stdoutFile, stderrFile, lines, pending)
    ensures failed <==> FailsNext(arrivals, k, progress)
    ensures !failed ==> LoopHead(arrivals[..k + 1], progress, open', stdoutFile', stderrFile', lines', pending')
    ensures !failed ==> open' <= open
  {
    failed, open', stdoutFile', stderrFile', lines', pending' := false, open, stdoutFile, stderrFile, lines, pending;
    OneMore(arrivals, k, Stdout, progress);
    OneMore(arrivals, k, Stderr, progress);
    var channel := arrivals[k].channel;
    assert channel in open <==> !Closed(arrivals[..k], channel, progress) by {
      assert channel == Stdout || channel == Stderr;
    }
    if channel !in open {
      return;
    }
    var chunk: seq<u8> := [];
    match arrivals[k] {
      case Chunk(_, data) =>
        chunk := data;
      case ReadError(_, eio) =>
        if !(progress && channel.Stderr? && eio) {
          failed := true;
          return;
        }
    }
    if chunk == [] {
      open' := open - {channel};
    } else if channel.Stdout? {
      stdoutFile' := stdoutFile + chunk;
      assert stdoutFile' == Unlines(lines) + (pending + chunk);
      lines', pending' := EmitLines(lines, pending + chunk);
    } else {
      stderrFile' := stderrFile + chunk;
    }
  }

  predicate Drained(arrivals: seq<Read>, progress: bool) {
    Closed(arrivals, Stdout, progress) && Closed(arrivals, Stderr, progress)
  }

  predicate GoesOn(arrivals: seq<Read>, k: nat, progress: bool)
    requires k <= |arrivals|
  {
    !Drained(arrivals[..k], progress) && !FailsNext(arrivals, k, progress)
  }

  /** Arrivals are taken in order while a channel is open; running out of them is the deadline. Once both are
      drained the child has the rest of the time to exit, with `exit` if it does. */
  method StreamProcess(arrivals: seq<Read>, progress: bool, exit: Option<int>)
    returns (stdoutFile: seq<u8>, stderrFile: seq<u8>, lines: seq<seq<u8>>, ending: Ending, consumed: nat)
    ensures consumed <= |arrivals|
    ensures stdoutFile == Data(arrivals[..consumed], Stdout, progress)
    ensures stderrFile == Data(arrivals[..consumed], Stderr, progress)
    // It stops at the first moment both channels are closed, a read of an open one fails, or time is up.
    ensures forall k | 0 <= k < consumed :: GoesOn(arrivals, k, progress)
    ensures var drained := Drained(arrivals[..consumed], progress);
            && (ending.Exited? <==> drained && exit.Some?)
            && (ending.Exited? ==> exit == Some(ending.status))
            && (ending.TimedOut? <==> (drained && exit.None?) || (!drained && consumed == |arrivals|))
            && (ending.Failed? <==> !drained && FailsNext(arrivals, consumed, progress))
            && (drained ==>
                  && stdoutFile == Data(arrivals, Stdout, progress) && stderrFile == Data(arrivals, Stderr, progress)
                  && FinalLines(stdoutFile, lines))
            && (!drained ==> exists pending :: Splits(stdoutFile, lines, pending))
  {
    var pending: seq<u8> := [];
    stdoutFile, stderrFile, lines, consumed := [], [], [], 0;
    var open := {Stdout, Stderr};
    while open != {}
      invariant consumed <= |arrivals| && open <= {Stdout, Stderr}
      invariant LoopHead(arrivals[..consumed], progress, open, stdoutFile, stderrFile, lines, pending)
      invariant forall k | 0 <= k < consumed :: GoesOn(arrivals, k, progress)
      decreases |arrivals| - consumed
    {
      if consumed == |arrivals| {
        return stdoutFile, stderrFile, lines, TimedOut, consumed;
      }
      var failed, open', stdoutFile', stderrFile', lines', pending' :=
        Take(arrivals, consumed, progress, open, stdoutFile, stderrFile, lines, pending);
      if failed {
        return stdoutFile, stderrFile, lines, Failed, consumed;
      }
      assert GoesOn(arrivals, consumed, progress);
      open, stdoutFile, stderrFile, lines, pending := open', stdoutFile', stderrFile', lines', pending';
      consumed := consumed + 1;
    }
    ClosedChannelIsComplete(arrivals, consumed, Stdout, progress);
    ClosedChannelIsComplete(arrivals, consumed, Stderr, progress);
    LastPiece(stdoutFile, lines, pending);
    if pending != [] {
      lines := lines + [pending];
    }
    ending := if exit.Some? then Exited(exit.value) else TimedOut;
  }

  /** The last complete line ends at the last newline of the text. */
  lemma LinesEndAtLastNewline(text: seq<u8>, lines: seq<seq<u8>>, pending: seq<u8>)
    requires Splits(text, lines, pending)
    ensures lines == [] <==> NEWLINE !in text
    ensures lines == [] ==> pending == text
    ensures lines != [] ==>
              var i := |text| - |pending| - 1;
              && 0 <= i && text[i] == NEWLINE && (forall k | i < k < |text| :: text[k] != NEWLINE)
              && text[..i] == Unlines(lines[..|lines| - 1]) + lines[|lines| - 1] && text[i + 1..] == pending
  {
    var i := |text| - |pending| - 1;
    assert forall k | i < k < |text| :: text[k] == pending[k - i - 1];
    if lines != [] {
      assert text[..i + 1] == Unlines(lines);
      assert text[i] == Unlines(lines)[i];
    }
  }

  /** A text splits at its newlines in only one way. */
  lemma {:induction false} SplitIsUnique(text: seq<u8>, ls: seq<seq<u8>>, p: seq<u8>, ms: seq<seq<u8>>, q: seq<u8>)
    requires Splits(text, ls, p) && Splits(text, ms, q)
    ensures ls == ms && p == q
    decreases |ls|
  {
    LinesEndAtLastNewline(text, ls, p);
    LinesEndAtLastNewline(text, ms, q);
    if ls == [] {
    } else {
      assert |p| == |q|;
      var short := text[..|text| - |p| - 1];
      SplitIsUnique(short, ls[..|ls| - 1], ls[|ls| - 1], ms[..|ms| - 1], ms[|ms| - 1]);
    }
  }

  /** So the emitted lines depend only on the bytes, not on chunk boundaries or the other channel. */
  lemma FinalLinesAreUnique(text: seq<u8>, emitted: seq<seq<u8>>, others: seq<seq<u8>>)
    requires FinalLines(text, emitted) && FinalLines(text, others)
    ensures emitted == others
  {
    var ls, p := if Splits(text, emitted, []) then emitted else emitted[..|emitted| - 1],
                 if Splits(text, emitted, []) then [] else emitted[|emitted| - 1];
    var ms, q := if Splits(text, others, []) then others else others[..|others| - 1],
                 if Splits(text, others, []) then [] else others[|others| - 1];
    SplitIsUnique(text, ls, p, ms, q);
    if !Splits(text, emitted, []) {
      assert emitted == ls + [p];
    }
    if !Splits(text, others, []) {
      assert others == ms + [q];
    }
  }
}
