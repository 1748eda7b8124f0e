// execute on POSIX: process_streams around the select loop, and the overload that writes files.

module Execution {
  import opened Options
  import opened Callbacks
  import opened Lines
  import opened Streams
  import opened Trimming
  import opened PosixPipes

  /** The pipes at the start. A descriptor of -1 means that there is no such pipe. */
  function Start(outFd: int, errFd: int, inFd: int, input: string): Flows {
    Flows(Flow(outFd != -1, [], []), Flow(errFd != -1, [], []), Flow(inFd != -1, [], input))
  }

  /** Whether the callback refuses one of the complete lines of the text. */
  predicate RefusedBy(trim: bool, callback: Option<Callback>, text: string) {
    callback.Some? && Refused(callback.value, [], Offered(trim, Completed([], text)))
  }

  /** `outSeen` and `errSeen` are the calls made to the callbacks; `output` and `error` what execute
      returns when it does not throw. */
  datatype Report = Report(outcome: Outcome, k: nat, served: nat,
                           outSeen: seq<string>, errSeen: seq<string>, output: string, error: string)

  /** Runs the loop over the pipes and finishes both streams. When the loop ends by itself or is stopped by a
      callback, the open last line is handed over too, and what was captured is returned; when it throws, only the
      complete lines have been handed over. It is stopped exactly when a callback refuses a complete line. */
  method Execute(trim: bool, outCallback: Option<Callback>, errCallback: Option<Callback>,
                 outFd: int, errFd: int, inFd: int, input: string, allowUnread: bool, rounds: seq<Round>)
    returns (r: Report)
    requires outFd >= -1 && errFd >= -1 && inFd >= -1
    ensures r.k <= |rounds| && AllQuiet(Start(outFd, errFd, inFd, input), allowUnread, rounds, r.k)
    ensures if r.outcome.Running? then r.k == |rounds|
            else r.k < |rounds| && Ends(AllAlone(Start(outFd, errFd, inFd, input), allowUnread, rounds, r.k),
                                        allowUnread, rounds[r.k], r.outcome, r.served)
    ensures r.outcome.Finished? || r.outcome.Stopped? ==>
              var end := After(Start(outFd, errFd, inFd, input), allowUnread, rounds, r.k, r.served);
              && (outCallback.Some? ==>
                    && r.output == []
                    && r.outSeen == Taken(outCallback.value, [], Offered(trim, LinesOf(end.out.moved))))
              && (errCallback.Some? ==>
                    && r.error == []
                    && r.errSeen == Taken(errCallback.value, [], Offered(trim, LinesOf(end.err.moved))))
              && (outCallback.None? ==> r.output == if trim then Trim(end.out.moved) else end.out.moved)
              && (errCallback.None? ==> r.error == if trim then Trim(end.err.moved) else end.err.moved)
    ensures r.outcome.TimedOut? || r.outcome.Failed? || r.outcome.Running? ==>
              var end := After(Start(outFd, errFd, inFd, input), allowUnread, rounds, r.k, r.served);
              && (outCallback.Some? ==>
                    r.outSeen == Taken(outCallback.value, [], Offered(trim, Completed([], end.out.moved))))
              && (errCallback.Some? ==>
                    r.errSeen == Taken(errCallback.value, [], Offered(trim, Completed([], end.err.moved))))
    ensures (outCallback.None? ==> r.outSeen == []) && (errCallback.None? ==> r.errSeen == [])
    ensures var end := After(Start(outFd, errFd, inFd, input), allowUnread, rounds, r.k, r.served);
            && (r.outcome.Stopped? <==>
                  RefusedBy(trim, outCallback, end.out.moved) || RefusedBy(trim, errCallback, end.err.moved))
            && (RefusedBy(trim, outCallback, end.out.moved) ==>
                  outCallback.Some? && Final(r.outSeen, trim, outCallback.value, end.out.moved))
            && (RefusedBy(trim, errCallback, end.err.moved) ==>
                  errCallback.Some? && Final(r.errSeen, trim, errCallback.value, end.err.moved))
  {
    var outStream := new Stream(trim, outCallback);
    var errStream := new Stream(trim, errCallback);
    var outcome, k, served := ReadStreams(outStream, errStream, outFd, errFd, inFd, input, allowUnread, rounds);
    if outcome != Finished && outcome != Stopped {
      return Report(outcome, k, served, outStream.seen, errStream.seen, [], []);
    }
    ghost var outText, errText := outStream.text, errStream.text;
    var output, error := FinishBoth(outStream, errStream);
    r := Report(outcome, k, served, outStream.seen, errStream.seen, output, error);
    RefusedIsFinal(trim, outCallback, outText);
    RefusedIsFinal(trim, errCallback, errText);
  }

  /** The end of process_streams. */
  method FinishBoth(outStream: Stream, errStream: Stream) returns (output: string, error: string)
    requires outStream.Valid() && errStream.Valid() && outStream != errStream
    modifies outStream, errStream
    ensures var was := old(outStream.text);
            && (outStream.callback.Some? ==>
                  && output == []
                  && outStream.seen == Taken(outStream.callback.value, [], Offered(outStream.trim, LinesOf(was))))
            && (outStream.callback.None? ==>
                  outStream.seen == [] && output == if outStream.trim then Trim(was) else was)
    ensures var was := old(errStream.text);
            && (errStream.callback.Some? ==>
                  && error == []
                  && errStream.seen == Taken(errStream.callback.value, [], Offered(errStream.trim, LinesOf(was))))
            && (errStream.callback.None? ==>
                  errStream.seen == [] && error == if errStream.trim then Trim(was) else was)
  {
    output := outStream.Finish();
    error := errStream.Finish();
  }

  /** The function that execute gives to process_streams: reads both streams through fresh pipes. */
  method ReadStreams(outStream: Stream, errStream: Stream, outFd: int, errFd: int, inFd: int, input: string,
                     allowUnread: bool, rounds: seq<Round>)
    returns (outcome: Outcome, k: nat, served: nat)
    requires outFd >= -1 && errFd >= -1 && inFd >= -1 && outStream != errStream
    requires outStream.Valid() && outStream.text == [] && !outStream.Stopped()
    requires errStream.Valid() && errStream.text == [] && !errStream.Stopped()
    modifies outStream, errStream
    ensures k <= |rounds| && AllQuiet(Start(outFd, errFd, inFd, input), allowUnread, rounds, k)
    ensures if outcome.Running? then k == |rounds|
            else k < |rounds| && Ends(AllAlone(Start(outFd, errFd, inFd, input), allowUnread, rounds, k),
                                      allowUnread, rounds[k], outcome, served)
    ensures outStream.Valid() && errStream.Valid()
    ensures var end := After(Start(outFd, errFd, inFd, input), allowUnread, rounds, k, served);
            outStream.text == end.out.moved && errStream.text == end.err.moved
    ensures outcome.Stopped? <==> outStream.Stopped() || errStream.Stopped()
  {
    var out := new Pipe.Reader(outFd, outStream);
    var err := new Pipe.Reader(errFd, errStream);
    var inp := new Pipe.Writer(inFd, input);
    outcome, k, served := RwFromChild(out, err, inp, rounds, allowUnread);
  }

  /** A run that finished has written the whole input, unless the child broke the pipe and that is allowed. */
  lemma FinishedRunsWroteTheInput(f: Flows, allowUnread: bool, rounds: seq<Round>, k: nat)
    requires f.inp.open && k < |rounds|
    requires Ends(AllAlone(f, allowUnread, rounds, k), allowUnread, rounds[k], Finished, 0)
    ensures var end := After(f, allowUnread, rounds, k, 0).inp;
            end.moved == f.inp.moved + f.inp.left || (allowUnread && exists j :: 0 <= j < k && BrokenAt(2, rounds[j]))
  {
    InputClosesWhenWritten(allowUnread, f.inp, 2, rounds, k);
    InputConserved(allowUnread, f.inp, 2, rounds, k);
    assert After(f, allowUnread, rounds, k, 0).inp == Alone(false, allowUnread, f.inp, 2, rounds, k);
  }

  // ----- What the delivered lines are -----

  /** Without trimming, and for output without carriage returns, the streamed lines are exactly those that
      each_line delivers on the whole text, whatever the callback refuses. */
  lemma StreamingIsEachLine(accept: Callback, text: string)
    requires '\r' !in text
    ensures Taken(accept, [], Offered(false, LinesOf(text))) == Taken(accept, [], AllWithoutCr(LinesOf(text)))
  {
    CrFree([], text);
    CrStrippingIsInvisible(text);
  }

  /** A callback that never refuses tells them apart if any does. */
  lemma OneTellsThemApart(text: string) returns (accept: Callback)
    requires AllWithoutCr(LinesOf(text)) != LinesOf(text)
    ensures Taken(accept, [], Offered(false, LinesOf(text))) != Taken(accept, [], AllWithoutCr(LinesOf(text)))
  {
    accept := _ => true;
    TakenAll(accept, [], LinesOf(text));
    TakenAll(accept, [], AllWithoutCr(LinesOf(text)));
    assert [] + LinesOf(text) == LinesOf(text);
    assert [] + AllWithoutCr(LinesOf(text)) == AllWithoutCr(LinesOf(text));
  }

  /** The exact condition: both agree for every callback if and only if no line ends in a carriage return,
      which each_line strips and the POSIX stream does not. */
  lemma StreamingIsEachLineExactly(text: string)
    ensures (forall accept: Callback ::
               Taken(accept, [], Offered(false, LinesOf(text))) == Taken(accept, [], AllWithoutCr(LinesOf(text))))
            <==> (forall i :: 0 <= i < |LinesOf(text)| ==> !EndsInCr(LinesOf(text)[i]))
  {
    CrStrippingIsInvisible(text);
    if AllWithoutCr(LinesOf(text)) != LinesOf(text) {
      var _ := OneTellsThemApart(text);
    }
  }

  /** A text on which they differ. */
  lemma CarriageReturnsDiffer()
    ensures LinesOf("a\r\n") == ["a\r"] && AllWithoutCr(LinesOf("a\r\n")) == ["a"]
    ensures exists accept: Callback ::
              Taken(accept, [], Offered(false, LinesOf("a\r\n"))) != Taken(accept, [], AllWithoutCr(LinesOf("a\r\n")))
  {
    OneLine([], "a\r");
    assert "a\r" + "\n" == "a\r\n" && [] + "a\r" == "a\r";
    assert LinesOf("a\r\n") == ["a\r"];
    assert EndsInCr(LinesOf("a\r\n")[0]);
    assert WithoutCr("a\r") == "a";
    StreamingIsEachLineExactly("a\r\n");
  }

  // ----- After a refusal -----

  /** The calls are the ones that any longer text would have led to. */
  ghost predicate Final(seen: seq<string>, trim: bool, accept: Callback, text: string) {
    forall more :: Taken(accept, [], Offered(trim, LinesOf(text + more))) == seen
  }

  /** A refused line settles what the callback has been handed, whatever else the child prints. */
  lemma RefusalIsFinal(trim: bool, accept: Callback, text: string)
    requires Refused(accept, [], Offered(trim, Completed([], text)))
    ensures Final(Taken(accept, [], Offered(trim, LinesOf(text))), trim, accept, text)
  {
    forall more
      ensures Taken(accept, [], Offered(trim, LinesOf(text + more))) == Taken(accept, [], Offered(trim, LinesOf(text)))
    {
      StopEarly(trim, accept, text, more);
      LastLine(trim, accept, text);
      LastLine(trim, accept, text + more);
    }
  }

  lemma RefusedIsFinal(trim: bool, callback: Option<Callback>, text: string)
    ensures RefusedBy(trim, callback, text) ==>
              && callback.Some?
              && Final(Taken(callback.value, [], Offered(trim, LinesOf(text))), trim, callback.value, text)
  {
    if RefusedBy(trim, callback, text) {
      RefusalIsFinal(trim, callback.value, text);
    }
  }

  // ----- Execute to file -----

  datatype FileReport = FileReport(report: Report, outFile: string, errFile: Option<string>)

  /** Appends every line the callback was handed, followed by a newline. */
  method WriteLines(lines: seq<string>) returns (file: string)
    ensures file == Unlines(lines)
  {
    file := [];
    for i := 0 to |lines|
      invariant file == Unlines(lines[..i])
    {
      assert lines[..i + 1] == lines[..i] + [lines[i]];
      UnlinesConcat(lines[..i], [lines[i]]);
      assert Unlines([lines[i]]) == lines[i] + "\n" + Unlines([]);
      file := file + (lines[i] + "\n");
    }
    assert lines[..|lines|] == lines;
  }

  /** A callback that never refuses. */
  method Always() returns (accept: Callback)
    ensures forall seen :: accept(seen)
  {
    accept := _ => true;
  }

  /** Standard output, and standard error when `toErrFile`, go to files through callbacks that never
      refuse; otherwise standard error is captured. */
  method ExecuteToFile(trim: bool, toErrFile: bool, outFd: int, errFd: int, inFd: int, input: string,
                       allowUnread: bool, rounds: seq<Round>)
    returns (r: FileReport)
    requires outFd >= -1 && errFd >= -1 && inFd >= -1
    ensures r.report.k <= |rounds| && AllQuiet(Start(outFd, errFd, inFd, input), allowUnread, rounds, r.report.k)
    ensures if r.report.outcome.Running? then r.report.k == |rounds|
            else r.report.k < |rounds|
                 && Ends(AllAlone(Start(outFd, errFd, inFd, input), allowUnread, rounds, r.report.k),
                         allowUnread, rounds[r.report.k], r.report.outcome, r.report.served)
    ensures !r.report.outcome.Stopped? && (r.errFile.Some? <==> toErrFile)
    ensures !r.report.outcome.Finished? ==>
              var end := After(Start(outFd, errFd, inFd, input), allowUnread, rounds, r.report.k, r.report.served);
              && r.outFile == Unlines(Offered(trim, Completed([], end.out.moved)))
              && (toErrFile ==> r.errFile == Some(Unlines(Offered(trim, Completed([], end.err.moved)))))
    ensures r.report.outcome.Finished? ==>
              var end := After(Start(outFd, errFd, inFd, input), allowUnread, rounds, r.report.k, r.report.served);
              && r.report.output == []
              && r.outFile == Unlines(Offered(trim, LinesOf(end.out.moved)))
              && (toErrFile ==>
                    r.errFile == Some(Unlines(Offered(trim, LinesOf(end.err.moved)))) && r.report.error == [])
              && (!toErrFile ==> r.report.error == if trim then Trim(end.err.moved) else end.err.moved)
  {
    var always := Always();
    var report := Execute(trim, Some(always), if toErrFile then Some(always) else None,
                          outFd, errFd, inFd, input, allowUnread, rounds);
    ghost var end := After(Start(outFd, errFd, inFd, input), allowUnread, rounds, report.k, report.served);
    TakesAll(always, trim, end.out.moved);
    TakesAll(always, trim, end.err.moved);
    var outFile := WriteLines(report.outSeen);
    var errFile := WriteLines(report.errSeen);
    r := FileReport(report, outFile, if toErrFile then Some(errFile) else None);
  }

  /** A callback that never refuses is handed all that is owed. */
  lemma TakesAll(accept: Callback, trim: bool, text: string)
    requires forall h :: accept(h)
    ensures !RefusedBy(trim, Some(accept), text)
    ensures Taken(accept, [], Offered(trim, Completed([], text))) == Offered(trim, Completed([], text))
    ensures Taken(accept, [], Offered(trim, LinesOf(text))) == Offered(trim, LinesOf(text))
  {
    TakenAll(accept, [], Offered(trim, Completed([], text)));
    TakenAll(accept, [], Offered(trim, LinesOf(text)));
    assert [] + Offered(trim, Completed([], text)) == Offered(trim, Completed([], text));
    assert [] + Offered(trim, LinesOf(text)) == Offered(trim, LinesOf(text));
  }

  /** The file written for a child that printed `text`, untrimmed: the text, with one newline added exactly when
      it is non-empty and unterminated. */
  lemma FileIsTheText(text: string)
    ensures Unlines(Offered(false, LinesOf(text))) ==
            if text == [] || text[|text| - 1] == '\n' then text else text + "\n"
  {
    UnlinesOfLines(text);
  }
}
