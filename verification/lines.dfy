// Lines of text: the simple line splitter util::each_line, and the laws of splitting that the streaming
// splitter in streams.dfy is measured against.

module Lines {
  import opened Callbacks
  import opened Searching

  /** A callback answers true to go on. Its answer may depend on every line it has been handed, the
      current one last, so any deterministic stateful callback is covered. */
  type Callback = seq<string> -> bool

  // ----- Cutting text at newlines -----

  /** The lines that a newline ends in `text`, when `open` is the start of the first of them. */
  function Completed(open: string, text: string): seq<string>
    decreases text
  {
    if text == [] then []
    else if text[0] == '\n' then [open] + Completed([], text[1..])
    else Completed(open + [text[0]], text[1..])
  }

  /** What follows the last newline of `text` (with `open` in front when there is no newline). */
  function Remainder(open: string, text: string): string
    decreases text
  {
    if text == [] then open
    else if text[0] == '\n' then Remainder([], text[1..])
    else Remainder(open + [text[0]], text[1..])
  }

  function NonEmpty(s: string): seq<string> {
    if s == [] then [] else [s]
  }

  /** The lines of a text: an unterminated last line counts unless it is empty. */
  function LinesOf(text: string): seq<string> {
    Completed([], text) + NonEmpty(Remainder([], text))
  }

  /** Cutting is chunk-independent: the open line carries over. */
  lemma {:induction false} CompletedConcat(open: string, a: string, b: string)
    ensures Completed(open, a + b) == Completed(open, a) + Completed(Remainder(open, a), b)
    ensures Remainder(open, a + b) == Remainder(Remainder(open, a), b)
    decreases a
  {
    if a == [] {
      assert a + b == b;
    } else {
      assert (a + b)[1..] == a[1..] + b;
      if a[0] == '\n' {
        CompletedConcat([], a[1..], b);
      } else {
        CompletedConcat(open + [a[0]], a[1..], b);
      }
    }
  }

  /** Text without a newline only extends the open line. */
  lemma {:induction false} NoNewline(open: string, text: string)
    requires '\n' !in text
    ensures Completed(open, text) == [] && Remainder(open, text) == open + text
    decreases text
  {
    if text == [] {
      assert open + text == open;
    } else {
      NoNewline(open + [text[0]], text[1..]);
      assert open + [text[0]] + text[1..] == open + text;
    }
  }

  /** One newline-terminated piece ends exactly one line. */
  lemma OneLine(open: string, text: string)
    requires '\n' !in text
    ensures Completed(open, text + "\n") == [open + text]
    ensures Remainder(open, text + "\n") == []
  {
    CompletedConcat(open, text, "\n");
    NoNewline(open, text);
    assert Completed(open + text, "\n") == [open + text] + Completed([], []);
  }

  /** A newline-free piece followed by a newline is the first line of a text; without one it is its only line. */
  lemma FirstLine(line: string, rest: string)
    requires '\n' !in line
    ensures LinesOf(line + "\n" + rest) == [line] + LinesOf(rest)
    ensures LinesOf(line) == if line == [] then [] else [line]
  {
    OneLine([], line);
    assert [] + line == line;
    CompletedConcat([], line + "\n", rest);
    NoNewline([], line);
  }

  // ----- Gluing lines back together -----

  /** Every line followed by a newline, as the execute-to-file callbacks write them. */
  function Unlines(lines: seq<string>): string {
    if lines == [] then [] else lines[0] + "\n" + Unlines(lines[1..])
  }

  lemma UnlinesOne(line: string)
    ensures Unlines([line]) == line + "\n"
  {
    assert Unlines([line][1..]) == [];
  }

  lemma {:induction false} UnlinesConcat(a: seq<string>, b: seq<string>)
    ensures Unlines(a + b) == Unlines(a) + Unlines(b)
  {
    if a == [] {
      assert a + b == b;
    } else {
      assert (a + b)[1..] == a[1..] + b;
      UnlinesConcat(a[1..], b);
    }
  }

  lemma GlueLine(open: string, glued: string, tail: string, text: string)
    requires text != [] && text[0] == '\n' && glued + tail == text[1..]
    ensures (open + "\n" + glued) + tail == open + text
  {
    assert (open + "\n" + glued) + tail == open + "\n" + (glued + tail);
    assert "\n" + text[1..] == text;
    assert open + "\n" + text[1..] == open + ("\n" + text[1..]);
  }

  lemma {:induction false} CutAndGlue(open: string, text: string)
    ensures Unlines(Completed(open, text)) + Remainder(open, text) == open + text
    decreases text
  {
    if text == [] {
    } else if text[0] == '\n' {
      CutAndGlue([], text[1..]);
      var rest := Completed([], text[1..]);
      assert ([open] + rest)[1..] == rest;
      GlueLine(open, Unlines(rest), Remainder([], text[1..]), text);
    } else {
      CutAndGlue(open + [text[0]], text[1..]);
      assert open + [text[0]] + text[1..] == open + text;
    }
  }

  lemma {:induction false} RemainderEmpty(open: string, text: string)
    ensures Remainder(open, text) == [] <==> (open + text == [] || (text != [] && text[|text| - 1] == '\n'))
    ensures text != [] && text[|text| - 1] != '\n' ==> Remainder(open, text) != []
    decreases text
  {
    if text == [] {
    } else if text[0] == '\n' {
      RemainderEmpty([], text[1..]);
    } else {
      RemainderEmpty(open + [text[0]], text[1..]);
    }
  }

  /** Writing every line with a newline reproduces the text, plus one newline exactly when the text is
      non-empty and unterminated. */
  lemma UnlinesOfLines(text: string)
    ensures Unlines(LinesOf(text)) == if text == [] || text[|text| - 1] == '\n' then text else text + "\n"
  {
    var tail := Remainder([], text);
    CutAndGlue([], text);
    UnlinesConcat(Completed([], text), NonEmpty(tail));
    RemainderEmpty([], text);
    if tail != [] {
      assert Unlines(NonEmpty(tail)) == tail + "\n";
      var glued := Unlines(Completed([], text));
      assert glued + tail == text;
      assert glued + (tail + "\n") == (glued + tail) + "\n";
    }
  }

  /** The other direction: cutting what was glued gives the same lines back. */
  lemma {:induction false} LinesOfUnlines(lines: seq<string>)
    requires forall i :: 0 <= i < |lines| ==> '\n' !in lines[i]
    ensures Completed([], Unlines(lines)) == lines && Remainder([], Unlines(lines)) == []
    ensures LinesOf(Unlines(lines)) == lines
  {
    if lines != [] {
      var first := lines[0];
      LinesOfUnlines(lines[1..]);
      OneLine([], first);
      CompletedConcat([], first + "\n", Unlines(lines[1..]));
      assert [] + first == first;
      assert lines == [first] + lines[1..];
    }
  }

  lemma {:induction false} CompletedHasNoNewline(open: string, text: string)
    requires '\n' !in open
    ensures forall i :: 0 <= i < |Completed(open, text)| ==> '\n' !in Completed(open, text)[i]
    ensures '\n' !in Remainder(open, text)
    decreases text
  {
    if text != [] {
      if text[0] == '\n' {
        CompletedHasNoNewline([], text[1..]);
      } else {
        CompletedHasNoNewline(open + [text[0]], text[1..]);
      }
    }
  }

  // ----- util::each_line -----

  function WithoutCr(line: string): string {
    if line != [] && line[|line| - 1] == '\r' then line[..|line| - 1] else line
  }

  function AllWithoutCr(lines: seq<string>): (r: seq<string>)
    ensures |r| == |lines|
    ensures forall i :: 0 <= i < |lines| ==> r[i] == WithoutCr(lines[i])
  {
    seq(|lines|, i requires 0 <= i < |lines| => WithoutCr(lines[i]))
  }

  predicate EndsInCr(line: string) {
    line != [] && line[|line| - 1] == '\r'
  }

  /** Exactly one carriage return at the end is taken off. */
  lemma OneCrIsStripped(line: string)
    ensures WithoutCr(line + "\r") == line
    ensures !EndsInCr(line) ==> WithoutCr(line) == line
    ensures EndsInCr(line) <==> exists kept :: line == kept + "\r"
  {
    assert EndsInCr(line) ==> line == line[..|line| - 1] + "\r";
  }

  /** Reads the lines of `text` with getline, strips one trailing carriage return from each, and hands
      them to the callback until it refuses. Returns what the callback was handed. */
  method EachLine(text: string, accept: Callback) returns (seen: seq<string>)
    ensures seen == Taken(accept, [], AllWithoutCr(LinesOf(text)))
  {
    seen := [];
    var pos := 0;
    ghost var done: seq<string> := [];
    while pos < |text|
      invariant pos <= |text|
      invariant LinesOf(text) == done + LinesOf(text[pos..])
      invariant seen == Taken(accept, [], AllWithoutCr(done))
      invariant !Refused(accept, [], AllWithoutCr(done))
    {
      var end := Find(text, pos, |text|, '\n');
      var next := if end < |text| then end + 1 else end;
      var line := text[pos..end];
      NextLine(text, pos, end);
      HandOneMore(accept, done, line, LinesOf(text[next..]));
      done := done + [line];
      if line != [] && line[|line| - 1] == '\r' {
        line := line[..|line| - 1];
      }
      seen := seen + [line];
      if !accept(seen) {
        return;
      }
      pos := next;
    }
    assert text[pos..] == [];
    assert done + [] == done;
  }

  lemma AllWithoutCrConcat(a: seq<string>, b: seq<string>)
    ensures AllWithoutCr(a + b) == AllWithoutCr(a) + AllWithoutCr(b)
  {
  }

  lemma HandOneMore(accept: Callback, done: seq<string>, raw: string, rest: seq<string>)
    requires !Refused(accept, [], AllWithoutCr(done))
    ensures done + ([raw] + rest) == (done + [raw]) + rest
    ensures var now := Taken(accept, [], AllWithoutCr(done)) + [WithoutCr(raw)];
            && Taken(accept, [], AllWithoutCr(done + [raw])) == now
            && (Refused(accept, [], AllWithoutCr(done + [raw])) <==> !accept(now))
            && (!accept(now) ==> Taken(accept, [], AllWithoutCr(done + ([raw] + rest))) == now)
  {
    AllWithoutCrConcat(done, [raw]);
    assert AllWithoutCr([raw]) == [WithoutCr(raw)];
    TakenConcat(accept, [], AllWithoutCr(done), [WithoutCr(raw)]);
    assert done + ([raw] + rest) == (done + [raw]) + rest;
    AllWithoutCrConcat(done + [raw], rest);
    TakenConcat(accept, [], AllWithoutCr(done + [raw]), AllWithoutCr(rest));
  }

  /** The first line of text[pos..], when the next newline (or the end of the text) is at `end`. */
  lemma NextLine(text: string, pos: nat, end: nat)
    requires pos < |text| && pos <= end <= |text|
    requires '\n' !in text[pos..end] && (end < |text| ==> text[end] == '\n')
    ensures LinesOf(text[pos..]) == [text[pos..end]] + LinesOf(text[if end < |text| then end + 1 else end..])
  {
    var line := text[pos..end];
    if end < |text| {
      var rest := text[end + 1..];
      assert text[pos..] == (line + "\n") + rest;
      OneLine([], line);
      assert [] + line == line;
      CompletedConcat([], line + "\n", rest);
    } else {
      assert text[pos..] == line;
      NoNewline([], line);
      assert [] + line == line;
      assert text[end..] == [];
    }
  }

  /** each_line hands over the raw lines of the text if and only if no line ends in a carriage return. */
  lemma CrStrippingIsInvisible(text: string)
    ensures AllWithoutCr(LinesOf(text)) == LinesOf(text) <==>
            forall i :: 0 <= i < |LinesOf(text)| ==> !EndsInCr(LinesOf(text)[i])
  {
    var ls := LinesOf(text);
    if AllWithoutCr(ls) == ls {
      forall i | 0 <= i < |ls|
        ensures !EndsInCr(ls[i])
      {
        assert WithoutCr(ls[i]) == AllWithoutCr(ls)[i] == ls[i];
      }
    }
  }

  /** Text without carriage returns has no line that ends in one. */
  lemma {:induction false} CrFree(open: string, text: string)
    requires '\r' !in open && '\r' !in text
    ensures forall i :: 0 <= i < |Completed(open, text)| ==> '\r' !in Completed(open, text)[i]
    ensures '\r' !in Remainder(open, text)
    decreases text
  {
    if text != [] {
      if text[0] == '\n' {
        CrFree([], text[1..]);
      } else {
        CrFree(open + [text[0]], text[1..]);
      }
    }
  }
}
