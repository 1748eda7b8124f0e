// Rebuilding lines from chunks of child output: process_data and process_streams.

module Streams {
  import opened Options
  import opened Callbacks
  import opened Lines
  import opened Searching
  import opened Trimming

  // ----- What a stream owes its callback -----

  /** The lines offered to the callback: all of them, or with trimming the trimmed non-empty ones. */
  function Offered(trim: bool, lines: seq<string>): seq<string> {
    if !trim then lines
    else if lines == [] then []
    else NonEmpty(Trim(lines[0])) + Offered(trim, lines[1..])
  }

  lemma {:induction false} OfferedConcat(trim: bool, a: seq<string>, b: seq<string>)
    ensures Offered(trim, a + b) == Offered(trim, a) + Offered(trim, b)
    decreases a
  {
    if trim {
      if a == [] {
        assert a + b == b;
      } else {
        assert (a + b)[1..] == a[1..] + b;
        OfferedConcat(trim, a[1..], b);
      }
    }
  }

  /** Every line is offered as it is, or with trimming trimmed, and then not at all when it is blank. */
  lemma OfferedOne(line: string)
    ensures Offered(false, [line]) == [line]
    ensures AllSpace(line) ==> Offered(true, [line]) == []
    ensures !AllSpace(line) ==> Offered(true, [line]) == [Trim(line)]
  {
    BlankExactly(line);
    assert Offered(true, [line]) == NonEmpty(Trim(line)) + Offered(true, []);
  }

  // ----- The stream -----

  /** One output stream of the child: the string buffer of process_streams together with the callback
      that consumes its lines. `seen` records the calls made to the callback. */
  class Stream {
    const trim: bool
    const callback: Option<Callback>
    var buffer: string
    var seen: seq<string>
    ghost var text: string  // everything passed to ProcessData so far

    /** The lines completed so far, as they are offered. */
    ghost function Done(): seq<string>
      reads this
    {
      Offered(trim, Completed([], text))
    }

    ghost predicate Stopped()
      reads this
    {
      callback.Some? && Refused(callback.value, [], Done())
    }

    ghost predicate Valid()
      reads this
    {
      match callback
      case None => buffer == text && seen == []
      case Some(accept) =>
        && seen == Taken(accept, [], Done())
        && buffer == if Stopped() then [] else Remainder([], text)
    }

    constructor (trim: bool, callback: Option<Callback>)
      ensures Valid() && text == [] && !Stopped()
      ensures this.trim == trim && this.callback == callback
    {
      this.trim, this.callback := trim, callback;
      buffer, seen, text := [], [], [];
    }

    /** The state agrees with having processed `sofar` and no line refused. */
    ghost predicate At(accept: Callback, sofar: string)
      reads this
    {
      && seen == Taken(accept, [], Offered(trim, Completed([], sofar)))
      && !Refused(accept, [], Offered(trim, Completed([], sofar)))
      && buffer == Remainder([], sofar)
    }

    /** Ends the open line with `piece` and hands it over; answers true when the callback refuses it. */
    method EndLine(accept: Callback, piece: string, ghost sofar: string) returns (finished: bool)
      requires callback == Some(accept) && At(accept, sofar) && '\n' !in piece
      modifies this
      ensures text == old(text) && buffer == []
      ensures !finished ==> At(accept, sofar + (piece + "\n"))
      ensures var next := Offered(trim, Completed([], sofar + (piece + "\n")));
              finished ==> Refused(accept, [], next) && seen == Taken(accept, [], next)
    {
      LineEnded(trim, accept, sofar, piece);
      buffer := buffer + piece;
      if trim {
        buffer := Trim(buffer);
        if buffer == [] {
          assert seen + [] == seen;
          return false;
        }
      }
      seen := seen + [buffer];
      finished := !accept(seen);
      buffer := [];
    }

    /** Hands over every line that ends in data[..last + 1]; `sofar` is the text up to there. */
    method SplitLines(accept: Callback, data: string, last: nat, ghost before: string)
      returns (finished: bool, ghost sofar: string)
      requires callback == Some(accept) && At(accept, before)
      requires last < |data| && data[last] == '\n'
      modifies this
      ensures text == old(text) && buffer == []
      ensures !finished ==> At(accept, sofar) && sofar + data[last + 1..] == before + data
      ensures var next := Offered(trim, Completed([], before + data));
              finished ==> Refused(accept, [], next) && seen == Taken(accept, [], next)
    {
      var pos := 0;
      sofar, finished := before, false;
      while pos <= last
        invariant 0 <= pos <= last + 1
        invariant At(accept, sofar) && sofar + data[pos..] == before + data
        invariant pos > 0 ==> buffer == []
        invariant text == old(text)
      {
        // The split iterator's next token ends at the next newline, at most `last`.
        var end := Find(data, pos, |data|, '\n');
        var piece := data[pos..end];
        NextPiece(sofar, data, pos, end);
        finished := EndLine(accept, piece, sofar);
        sofar := sofar + (piece + "\n");
        if finished {
          StopEarly(trim, accept, sofar, data[end + 1..]);
          return;
        }
        pos := end + 1;
      }
    }

    /** Consumes one chunk; answers false when the callback refused a line, after which the rest of the
        chunk is dropped. */
    method ProcessData(data: string) returns (more: bool)
      requires Valid() && !Stopped()
      modifies this
      ensures Valid() && text == old(text) + data
      ensures more == !Stopped()
    {
      ghost var before := text;
      text := text + data;
      if data == [] {
        assert text == before;
        return true;
      }
      if callback.None? {
        buffer := buffer + data;
        return true;
      }
      var accept := callback.value;
      var last := FindLastNewline(data);
      if last < 0 {
        NoLineEnded(before, data);
        buffer := buffer + data;
        return true;
      }
      ghost var sofar;
      var finished;
      finished, sofar := SplitLines(accept, data, last, before);
      if finished {
        return false;
      }
      NoLineEnded(sofar, data[last + 1..]);
      buffer := data[last + 1..];
      return true;
    }

    /** The end of process_streams: hands over the unterminated last line and yields what was captured. */
    method Finish() returns (captured: string)
      requires Valid()
      modifies this
      ensures callback.Some? ==> seen == Taken(callback.value, [], Offered(trim, LinesOf(text))) && captured == []
      ensures callback.None? ==> seen == [] && captured == if trim then Trim(text) else text
      ensures text == old(text)
    {
      if callback.Some? {
        LastLine(trim, callback.value, text);
      }
      if trim {
        buffer := Trim(buffer);
      }
      if buffer != [] && callback.Some? {
        seen := seen + [buffer];
        buffer := [];
      }
      captured := buffer;
    }
  }

  lemma NextPiece(sofar: string, data: string, pos: nat, end: nat)
    requires pos <= end < |data| && data[end] == '\n'
    ensures sofar + data[pos..] == (sofar + (data[pos..end] + "\n")) + data[end + 1..]
  {
    assert data[pos..] == data[pos..end] + "\n" + data[end + 1..];
  }

  method FindLastNewline(data: string) returns (last: int)
    ensures -1 <= last < |data|
    ensures last == -1 ==> '\n' !in data
    ensures last >= 0 ==> data[last] == '\n' && '\n' !in data[last + 1..]
  {
    last := |data| - 1;
    while last >= 0 && data[last] != '\n'
      invariant -1 <= last < |data|
      invariant '\n' !in data[last + 1..]
    {
      assert data[last..] == [data[last]] + data[last + 1..];
      last := last - 1;
    }
  }

  /** The effect of one more newline-terminated piece on what the callback is owed. */
  lemma LineEnded(trim: bool, accept: Callback, sofar: string, piece: string)
    requires '\n' !in piece
    requires !Refused(accept, [], Offered(trim, Completed([], sofar)))
    ensures Remainder([], sofar + (piece + "\n")) == []
    ensures
      var seen := Taken(accept, [], Offered(trim, Completed([], sofar)));
      var line := Remainder([], sofar) + piece;
      var owed := Offered(trim, [line]);
      var next := Offered(trim, Completed([], sofar + (piece + "\n")));
      && Taken(accept, [], next) == seen + owed
      && (Refused(accept, [], next) <==> owed != [] && !accept(seen + owed))
      && owed == if trim then NonEmpty(Trim(line)) else [line]
  {
    var line := Remainder([], sofar) + piece;
    CompletedConcat([], sofar, piece + "\n");
    OneLine(Remainder([], sofar), piece);
    OfferedConcat(trim, Completed([], sofar), [line]);
    assert trim ==> Offered(trim, [line]) == NonEmpty(Trim(line)) + Offered(trim, []);
    var owed := Offered(trim, [line]);
    TakenConcat(accept, [], Offered(trim, Completed([], sofar)), owed);
    var seen := Taken(accept, [], Offered(trim, Completed([], sofar)));
    assert owed == [] ==> seen + owed == seen;
  }

  /** Text without a newline ends no line. */
  lemma NoLineEnded(sofar: string, more: string)
    requires '\n' !in more
    ensures Completed([], sofar + more) == Completed([], sofar)
    ensures Remainder([], sofar + more) == Remainder([], sofar) + more
  {
    CompletedConcat([], sofar, more);
    NoNewline(Remainder([], sofar), more);
  }

  /** After a refusal further text changes nothing. */
  lemma StopEarly(trim: bool, accept: Callback, sofar: string, more: string)
    requires Refused(accept, [], Offered(trim, Completed([], sofar)))
    ensures Refused(accept, [], Offered(trim, Completed([], sofar + more)))
    ensures Taken(accept, [], Offered(trim, Completed([], sofar + more))) ==
            Taken(accept, [], Offered(trim, Completed([], sofar)))
  {
    CompletedConcat([], sofar, more);
    var extra := Completed(Remainder([], sofar), more);
    OfferedConcat(trim, Completed([], sofar), extra);
    TakenConcat(accept, [], Offered(trim, Completed([], sofar)), Offered(trim, extra));
  }

  /** What the unterminated last line adds. */
  lemma LastLine(trim: bool, accept: Callback, text: string)
    ensures
      var done := Offered(trim, Completed([], text));
      var tail := Remainder([], text);
      Taken(accept, [], Offered(trim, LinesOf(text))) == Taken(accept, [], done) +
        if Refused(accept, [], done) then [] else NonEmpty(if trim then Trim(tail) else tail)
  {
    var done := Offered(trim, Completed([], text));
    var tail := Remainder([], text);
    OfferedConcat(trim, Completed([], text), NonEmpty(tail));
    if trim && tail != [] {
      assert Offered(trim, NonEmpty(tail)) == NonEmpty(Trim(tail)) + Offered(trim, []);
    }
    var owed := NonEmpty(if trim then Trim(tail) else tail);
    assert Offered(trim, NonEmpty(tail)) == owed;
    TakenConcat(accept, [], done, owed);
    assert Taken(accept, [], done) + [] == Taken(accept, [], done);
  }
}
