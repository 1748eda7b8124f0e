// What the bracket scans promise when they start on an angle bracket: a heuristic finds the other end, but
// the text in between is always nested, as far as parentheses, square brackets and braces go.

module AngleBrackets {
  import opened Options
  import opened Brackets
  import opened BracketGrammar
  import opened Slices

  // ----- Forward -----

  /** The stack of a forward scan that began on '<'. */
  predicate OpeningAngle(stack: string) {
    stack != [] && stack[0] == '<' && forall i :: 0 <= i < |stack| ==> stack[i] == '<' || IsOpener(stack[i])
  }

  /** Dropping '<' leaves a bracket on top, if anything, and takes none away. */
  lemma {:induction false} DropsAngles(stack: string, angle: char)
    requires !IsOpener(angle) && !IsCloser(angle)
    ensures Strip(DropAngles(stack, angle)) == Strip(stack)
  {
    if TopIs(stack, angle) {
      DropsAngles(stack[..|stack| - 1], angle);
    }
  }

  /** A closer that is accepted takes its partner off the stack, and never the '<' at the bottom. */
  lemma CloserInAngles(c: char, stack: string)
    requires IsCloser(c) && OpeningAngle(stack)
    ensures var m, plain := CloserMove(c, stack), Strip(stack);
            m.verdict.GiveUp? || (m.verdict.GoOn? && OpeningAngle(m.stack) && plain != []
                                  && Pairs(plain[|plain| - 1], c) && Strip(m.stack) == plain[..|plain| - 1])
  {
    DropsAngles(stack, '<');
  }

  lemma PushInAngles(stack: string, angle: char)
    requires !IsOpener(angle) && !IsCloser(angle)
    ensures Strip(stack + [angle]) == Strip(stack)
  {
    StripPush(stack, angle);
  }

  lemma AngleInAngles(line: string, i: nat, stack: string)
    requires i < |line| && OpeningAngle(stack)
    ensures var m := AngleMove(line, i, stack);
            match m.verdict
            case GoOn => OpeningAngle(m.stack) && Strip(m.stack) == Strip(stack)
            case GiveUp => true
            case Matched => line[i] == '>' && Strip(stack) == []
  {
    if line[i] == '<' && !ShiftsLeft(line, i) {
      PushInAngles(stack, '<');
    } else if line[i] == '<' || line[i] == '>' {
      if TopIs(stack, '<') {
        PushInAngles(stack[..|stack| - 1], '<');
        assert stack[..|stack| - 1] + ['<'] == stack;
      }
    } else {
      DropsAngles(stack, '<');
    }
  }

  lemma PushBelow(below: string, plain: string, c: char)
    ensures (below + plain) + [c] == below + (plain + [c])
  {
  }

  lemma PopAbove(below: string, plain: string)
    requires plain != []
    ensures (below + plain)[|below + plain| - 1] == plain[|plain| - 1]
    ensures (below + plain)[..|below + plain| - 1] == below + plain[..|plain| - 1]
  {
  }

  /** Whatever lies below on a plain matcher's stack, it goes along: after a move its brackets are those of the
      scan, and when the scan has found its '>' they are gone. */
  lemma MoveInAngles(line: string, i: nat, stack: string, below: string)
    requires i < |line| && OpeningAngle(stack) && below != []
    ensures var m := ForwardMove(line, i, stack);
            match m.verdict
            case GoOn => OpeningAngle(m.stack) && Steps(line[i], below + Strip(stack), below + Strip(m.stack))
            case GiveUp => true
            case Matched => line[i] == '>' && Strip(stack) == []
  {
    var c, plain := line[i], Strip(stack);
    if IsOpener(c) {
      StripPush(stack, c);
      PushBelow(below, plain, c);
    } else if IsCloser(c) {
      CloserInAngles(c, stack);
      if plain != [] {
        PopAbove(below, plain);
      }
    } else if c == '<' || c == '>' || c == ';' {
      AngleInAngles(line, i, stack);
    }
  }

  /** The text from i on that a scan passes over brings the plain matcher from one stack to `below` when the
      scan has found a '>', and to `after` when it goes on with the next line. */
  predicate Passes(line: string, i: nat, end: int, from: string, below: string, after: Option<string>) {
    && (end > -1 ==> i < end <= |line| && line[end - 1] == '>' && Forward(line[..end - 1], i, from) == Continue(below))
    && (after.Some? ==> Forward(line, i, from) == Continue(after.value))
  }

  lemma PassesOne(line: string, i: nat, end: int, from: string, next: string, below: string, after: Option<string>)
    requires i < |line| && Steps(line[i], from, next)
    requires Passes(line, i + 1, end, next, below, after)
    ensures Passes(line, i, end, from, below, after)
  {
    if end > -1 {
      StepForward(line[..end - 1], i, from, next);
    }
    StepForward(line, i, from, next);
  }

  /** The brackets of the stack that a scan ends a line with, on those below. */
  function Above(below: string, rest: Option<string>): Option<string> {
    if rest.Some? then Some(below + Strip(rest.value)) else None
  }

  /** In a scan of one line that began on '<', brackets are taken off the stack before the '>' is found. */
  lemma {:induction false} RunInAngles(line: string, i: nat, stack: string, below: string)
    requires i <= |line| && OpeningAngle(stack) && below != []
    ensures var (end, rest) := ForwardRun(line, i, stack);
            Passes(line, i, end, below + Strip(stack), below, Above(below, rest))
            && (rest.Some? ==> OpeningAngle(rest.value))
    decreases |line| - i
  {
    if i < |line| {
      MoveInAngles(line, i, stack, below);
      var m := ForwardMove(line, i, stack);
      if m.verdict.Matched? {
        assert below + [] == below;
      } else if m.verdict.GoOn? {
        RunInAngles(line, i + 1, m.stack, below);
        var (end, rest) := ForwardRun(line, i + 1, m.stack);
        PassesOne(line, i, end, below + Strip(stack), below + Strip(m.stack), below, Above(below, rest));
      }
    }
  }

  /** A match is on this line, or is found from the next line on. */
  lemma FileSplits(lines: seq<string>, l: nat, i: nat, stack: string, close: Place)
    requires l < |lines| && ForwardFile(lines, l, i, stack) == Some(close)
    ensures var (end, rest) := ForwardRun(lines[l], i, stack);
            if end > -1 then close == Place(l, end - 1)
            else rest.Some? && l + 1 < |lines| && ForwardFile(lines, l + 1, 0, rest.value) == Some(close)
  {
  }

  /** What is found is a '>' further on. */
  lemma {:induction false} FoundAngle(lines: seq<string>, l: nat, i: nat, stack: string, close: Place)
    requires l < |lines| && i <= |lines[l]| && OpeningAngle(stack)
    requires ForwardFile(lines, l, i, stack) == Some(close)
    ensures Precedes(lines, l, i, close) && close.pos < |lines[close.line]| && lines[close.line][close.pos] == '>'
    decreases |lines| - l
  {
    RunInAngles(lines[l], i, stack, "(");
    FileSplits(lines, l, i, stack, close);
    var (end, rest) := ForwardRun(lines[l], i, stack);
    if end == -1 {
      FoundAngle(lines, l + 1, 0, rest.value, close);
    }
  }

  /** The text up to it takes the brackets off the stack. */
  lemma {:induction false} FileInAngles(lines: seq<string>, l: nat, i: nat, stack: string, below: string, close: Place)
    requires l < |lines| && i <= |lines[l]| && OpeningAngle(stack) && below != []
    requires ForwardFile(lines, l, i, stack) == Some(close) && Precedes(lines, l, i, close)
    ensures Forward(Between(lines, l, i, close), 0, below + Strip(stack)) == Continue(below)
    decreases |lines| - l
  {
    RunInAngles(lines[l], i, stack, below);
    FileSplits(lines, l, i, stack, close);
    var (end, rest) := ForwardRun(lines[l], i, stack);
    if end > -1 {
      ForwardSlice(lines[l], i, end - 1, below + Strip(stack));
    } else {
      FoundAngle(lines, l + 1, 0, rest.value, close);
      FileInAngles(lines, l + 1, 0, rest.value, below, close);
      BetweenOn(lines, l, i, close, below + Strip(stack), below + Strip(rest.value), below);
    }
  }

  lemma BetweenOn(lines: seq<string>, l: nat, i: nat, close: Place, from: string, next: string, below: string)
    requires Precedes(lines, l, i, close) && l < close.line && Forward(lines[l], i, from) == Continue(next)
    requires Forward(Between(lines, l + 1, 0, close), 0, next) == Continue(below)
    ensures Forward(Between(lines, l, i, close), 0, from) == Continue(below)
  {
    var line := lines[l];
    assert line[..|line|] == line;
    ForwardSlice(line, i, |line|, from);
    ForwardOn(Slice(line, i, |line|), Between(lines, l + 1, 0, close), from, next, below);
  }

  /** A '<' that a scan takes for an angle bracket: neither part of a left shift nor of an operator's name. */
  predicate OpensAngle(line: string, p: nat) {
    p < |line| && line[p] == '<' && !ShiftsLeft(line, p) && !NamesOperator(line, p)
  }

  /** Started on such a '<', a scan that succeeds has found a '>', over any number of lines, and the text in
      between is nested. */
  lemma AnglesEncloseNesting(lines: seq<string>, open: Place, close: Place) returns (t: Nested)
    requires open.line < |lines| && OpensAngle(lines[open.line], open.pos)
    requires ForwardFile(lines, open.line, open.pos, []) == Some(close)
    ensures Precedes(lines, open.line, open.pos + 1, close)
    ensures close.pos < |lines[close.line]| && lines[close.line][close.pos] == '>'
    ensures WellFormed(t) && Yield(t) == Between(lines, open.line, open.pos + 1, close)
  {
    assert [] + ['<'] == "<";
    assert Strip("<") == [] && "(" + [] == "(";
    FoundAngle(lines, open.line, open.pos + 1, "<", close);
    FileInAngles(lines, open.line, open.pos + 1, "<", "(", close);
    t := NeutralIsNested(Between(lines, open.line, open.pos + 1, close));
  }

  // ----- Where a scan really starts -----

  /** The character makes a difference to a scan with an empty stack. */
  predicate IsLive(line: string, i: nat)
    requires i < |line|
  {
    IsOpener(line[i]) || IsCloser(line[i]) || line[i] == ';' || OpensAngle(line, i)
  }

  /** The first such character from i on, |line| when there is none. */
  function FirstLive(line: string, i: nat): (k: nat)
    requires i <= |line|
    ensures i <= k <= |line|
    ensures k < |line| ==> IsLive(line, k)
    ensures forall j :: i <= j < k ==> !IsLive(line, j)
    decreases |line| - i
  {
    if i == |line| || IsLive(line, i) then i else FirstLive(line, i + 1)
  }

  /** Until then, an empty stack stays empty. */
  lemma {:induction false} StartsAtFirstLive(line: string, i: nat)
    requires i <= |line|
    ensures ForwardRun(line, i, []) == ForwardRun(line, FirstLive(line, i), [])
    decreases |line| - i
  {
    if i < |line| && !IsLive(line, i) {
      assert ForwardMove(line, i, []) == Move([], GoOn, 0);
      StartsAtFirstLive(line, i + 1);
    }
  }

  /** What a scan finds from a character that makes a difference. */
  lemma LiveDecides(lines: seq<string>, l: nat, k: nat, close: Place)
    requires l < |lines| && k <= |lines[l]| && (k < |lines[l]| ==> IsLive(lines[l], k))
    requires ForwardFile(lines, l, k, []) == Some(close)
    ensures close.line < |lines| && close.pos < |lines[close.line]| && k < |lines[l]|
    ensures lines[close.line][close.pos] == '>' <==> lines[l][k] == '<'
  {
    SomethingStarts(lines, l, k, close);
    if IsOpener(lines[l][k]) {
      OpenerFindsCloser(lines, l, k, close);
    } else {
      var _ := AnglesEncloseNesting(lines, Place(l, k), close);
    }
  }

  lemma FileStartsAtFirstLive(lines: seq<string>, l: nat, p: nat)
    requires l < |lines| && p <= |lines[l]|
    ensures ForwardFile(lines, l, p, []) == ForwardFile(lines, l, FirstLive(lines[l], p), [])
  {
    StartsAtFirstLive(lines[l], p);
    SameRunSameMatch(lines, l, p, FirstLive(lines[l], p), [], []);
  }

  /** The exact condition for the scan from a '<', or from anywhere, to find a '>' when it finds something: the
      first character from there on that makes a difference opens an angle bracket. */
  lemma FindsAngleWhen(lines: seq<string>, l: nat, p: nat, close: Place)
    requires l < |lines| && p <= |lines[l]| && ForwardFile(lines, l, p, []) == Some(close)
    ensures close.line < |lines| && close.pos < |lines[close.line]|
    ensures FirstLive(lines[l], p) < |lines[l]|
    ensures lines[close.line][close.pos] == '>' <==> lines[l][FirstLive(lines[l], p)] == '<'
  {
    FileStartsAtFirstLive(lines, l, p);
    LiveDecides(lines, l, FirstLive(lines[l], p), close);
  }

  lemma OpenerFindsCloser(lines: seq<string>, l: nat, k: nat, close: Place)
    requires l < |lines| && k < |lines[l]| && IsOpener(lines[l][k]) && ForwardFile(lines, l, k, []) == Some(close)
    ensures close.line < |lines| && close.pos < |lines[close.line]| && IsCloser(lines[close.line][close.pos])
  {
    ForwardFileIsPlain(lines, l, k, []);
    var c := lines[l][k];
    assert [] + [c] == [c];
    BackFrom(lines, l, k + 1, [c], close);
  }

  lemma SomethingStarts(lines: seq<string>, l: nat, k: nat, close: Place)
    requires l < |lines| && k <= |lines[l]| && (k < |lines[l]| ==> IsLive(lines[l], k))
    requires ForwardFile(lines, l, k, []) == Some(close)
    ensures k < |lines[l]| && (IsOpener(lines[l][k]) || OpensAngle(lines[l], k))
  {
    if k == |lines[l]| || IsCloser(lines[l][k]) || lines[l][k] == ';' {
      NothingStarts(lines[l], k);
    }
  }

  /** A closer or a semicolon ends a scan with an empty stack, and so does the end of the line. */
  lemma NothingStarts(line: string, k: nat)
    requires k <= |line| && (k < |line| ==> IsCloser(line[k]) || line[k] == ';')
    ensures ForwardRun(line, k, []) == (-1, if k < |line| then None else Some([]))
  {
  }

  /** Any other '<' is passed over, and the scan is the one from the next character on. */
  lemma OtherAnglesArePassedOver(lines: seq<string>, l: nat, p: nat)
    requires l < |lines| && p < |lines[l]| && lines[l][p] == '<'
    requires ShiftsLeft(lines[l], p) || NamesOperator(lines[l], p)
    ensures ForwardFile(lines, l, p, []) == ForwardFile(lines, l, p + 1, [])
  {
  }

  /** So that the end of such an expression can be the end of another: here, of the parameters. */
  lemma OperatorNamesMislead()
    ensures Starts("operator<(a)", 8) && ForwardFile(["operator<(a)"], 0, 8, []) == Some(Place(0, 11))
  {
    var line := "operator<(a)";
    assert line[8] == '<' && line[9] == '(' && line[10] == 'a' && line[11] == ')';
    assert forall j :: 0 <= j < 8 ==> line[j] == OPERATOR[j];
    OperatorIsRecognized(line);
    OtherAnglesArePassedOver([line], 0, 8);
    ForwardFileIsPlain([line], 0, 9, []);
    ParametersAreFound(line, ['(']);
  }

  lemma OperatorIsRecognized(line: string)
    requires |line| > 8 && forall j :: 0 <= j < 8 ==> line[j] == OPERATOR[j]
    ensures NamesOperator(line, 8)
  {
    assert line[7] == OPERATOR[7] == 'r';
  }

  lemma ParametersAreFound(line: string, stack: string)
    requires |line| == 12 && line[9] == '(' && line[10] == 'a' && line[11] == ')' && stack == ['(']
    ensures Forward(line, 9, []) == Found(11)
  {
    assert [] + ['('] == stack;
    assert Forward(line, 11, stack) == Found(11);
    assert Forward(line, 10, stack) == Found(11);
  }

  // ----- Backward -----

  /** The stack of a backward scan that began on '>'. */
  predicate ClosingAngle(stack: string) {
    stack != [] && stack[0] == '>' && forall i :: 0 <= i < |stack| ==> stack[i] == '>' || IsCloser(stack[i])
  }

  lemma OpenerInAngles(c: char, stack: string)
    requires IsOpener(c) && ClosingAngle(stack)
    ensures var m, plain := OpenerMove(c, stack), Strip(stack);
            m.verdict.GiveUp? || (m.verdict.GoOn? && m.skip == 0 && ClosingAngle(m.stack) && plain != []
                                  && Pairs(c, plain[|plain| - 1]) && Strip(m.stack) == plain[..|plain| - 1])
  {
    DropsAngles(stack, '>');
  }

  lemma AngleInAnglesBackward(line: string, i: nat, stack: string)
    requires i < |line| && ClosingAngle(stack)
    ensures var m := BackwardAngleMove(line, i, stack);
            match m.verdict
            case GoOn => ClosingAngle(m.stack) && Strip(m.stack) == Strip(stack)
            case GiveUp => true
            case Matched => line[i] == '<' && Strip(stack) == []
  {
    if line[i] == '>' {
      PushInAngles(stack, '>');
    } else if line[i] == '<' {
      if TopIs(stack, '>') {
        PushInAngles(stack[..|stack| - 1], '>');
        assert stack[..|stack| - 1] + ['>'] == stack;
      }
    } else {
      DropsAngles(stack, '>');
    }
  }

  lemma MoveInAnglesBackward(line: string, i: nat, stack: string, below: string)
    requires i < |line| && ClosingAngle(stack) && below != []
    ensures var m := BackwardMove(line, i, stack);
            match m.verdict
            case GoOn => ClosingAngle(m.stack) && StepsBack(line[i], below + Strip(stack), below + Strip(m.stack))
            case GiveUp => true
            case Matched => line[i] == '<' && Strip(stack) == []
  {
    var c, plain := line[i], Strip(stack);
    if IsCloser(c) {
      StripPush(stack, c);
      PushBelow(below, plain, c);
    } else if IsOpener(c) {
      OpenerInAngles(c, stack);
      if plain != [] {
        PopAbove(below, plain);
      }
    } else if c == '<' || c == '>' || c == ';' {
      AngleInAnglesBackward(line, i, stack);
    }
  }

  /** A skipped character is nothing to a plain matcher. */
  lemma SkippedInAngles(line: string, i: nat, stack: string, plain: string)
    requires i < |line| && BackwardMove(line, i, stack).skip == 1
    ensures i > 0 && StepsBack(line[i - 1], plain, plain)
  {
    SkipsNoBracket(line, i, stack);
  }

  predicate PassesBack(line: string, i: int, start: int, from: string, below: string, after: Option<string>)
    requires -1 <= i < |line|
  {
    && (start > -1 ==> start <= i && line[start] == '<'
                       && Backward(line[start + 1..], i - start - 1, from) == Continue(below))
    && (after.Some? ==> Backward(line, i, from) == Continue(after.value))
  }

  lemma PassesOneBack(line: string, i: nat, start: int, from: string, next: string, below: string,
                      after: Option<string>)
    requires i < |line| && StepsBack(line[i], from, next)
    requires PassesBack(line, i - 1, start, next, below, after)
    ensures PassesBack(line, i, start, from, below, after)
  {
    if start > -1 {
      StepBackward(line[start + 1..], i - start - 1, from, next);
    }
    StepBackward(line, i, from, next);
  }

  lemma PassesMoveBack(line: string, i: nat, stack: string, start: int, from: string, next: string, below: string,
                       after: Option<string>)
    requires i < |line| && StepsBack(line[i], from, next)
    requires PassesBack(line, i - 1 - BackwardMove(line, i, stack).skip, start, next, below, after)
    ensures PassesBack(line, i, start, from, below, after)
  {
    if BackwardMove(line, i, stack).skip == 1 {
      SkippedInAngles(line, i, stack, next);
      PassesOneBack(line, i - 1, start, next, next, below, after);
    }
    PassesOneBack(line, i, start, from, next, below, after);
  }

  lemma {:induction false} RunInAnglesBackward(line: string, i: int, stack: string, below: string)
    requires -1 <= i < |line| && ClosingAngle(stack) && below != []
    ensures var (start, rest) := BackwardRun(line, i, stack);
            PassesBack(line, i, start, below + Strip(stack), below, Above(below, rest))
            && (rest.Some? ==> ClosingAngle(rest.value))
    decreases i
  {
    if i >= 0 {
      MoveInAnglesBackward(line, i, stack, below);
      var m := BackwardMove(line, i, stack);
      if m.verdict.Matched? {
        assert below + [] == below;
      } else if m.verdict.GoOn? {
        RunInAnglesBackward(line, i - 1 - m.skip, m.stack, below);
        var (start, rest) := BackwardRun(line, i - 1 - m.skip, m.stack);
        PassesMoveBack(line, i, stack, start, below + Strip(stack), below + Strip(m.stack), below, Above(below, rest));
      }
    }
  }

  lemma FileSplitsBackward(lines: seq<string>, l: nat, i: int, stack: string, open: Place)
    requires l < |lines| && i < |lines[l]| && BackwardFile(lines, l, i, stack) == Some(open)
    ensures var (start, rest) := BackwardRun(lines[l], i, stack);
            if start > -1 then open == Place(l, start)
            else rest.Some? && l > 0 && BackwardFile(lines, l - 1, |lines[l - 1]| - 1, rest.value) == Some(open)
  {
  }

  lemma {:induction false} FoundAngleBackward(lines: seq<string>, l: nat, i: int, stack: string, open: Place)
    requires l < |lines| && -1 <= i < |lines[l]| && ClosingAngle(stack)
    requires BackwardFile(lines, l, i, stack) == Some(open)
    ensures Precedes(lines, open.line, open.pos + 1, Place(l, i + 1)) && lines[open.line][open.pos] == '<'
    decreases l
  {
    RunInAnglesBackward(lines[l], i, stack, ")");
    FileSplitsBackward(lines, l, i, stack, open);
    var (start, rest) := BackwardRun(lines[l], i, stack);
    if start == -1 {
      FoundAngleBackward(lines, l - 1, |lines[l - 1]| - 1, rest.value, open);
    }
  }

  lemma {:induction false} FileInAnglesBackward(lines: seq<string>, l: nat, i: int, stack: string, below: string,
                                                open: Place)
    requires l < |lines| && -1 <= i < |lines[l]| && ClosingAngle(stack) && below != []
    requires BackwardFile(lines, l, i, stack) == Some(open) && Precedes(lines, open.line, open.pos + 1, Place(l, i + 1))
    ensures BackwardText(Between(lines, open.line, open.pos + 1, Place(l, i + 1)), below + Strip(stack))
            == Continue(below)
    decreases l
  {
    RunInAnglesBackward(lines[l], i, stack, below);
    FileSplitsBackward(lines, l, i, stack, open);
    var (start, rest) := BackwardRun(lines[l], i, stack);
    if start > -1 {
      BackwardSlice(lines[l], start + 1, i, below + Strip(stack));
    } else {
      FoundAngleBackward(lines, l - 1, |lines[l - 1]| - 1, rest.value, open);
      FileInAnglesBackward(lines, l - 1, |lines[l - 1]| - 1, rest.value, below, open);
      BetweenBack(lines, open, l, i, below + Strip(stack), below + Strip(rest.value), below);
    }
  }

  lemma BetweenBack(lines: seq<string>, open: Place, l: nat, i: int, from: string, next: string, below: string)
    requires open.line < l < |lines| && -1 <= i < |lines[l]| && Backward(lines[l], i, from) == Continue(next)
    requires Precedes(lines, open.line, open.pos + 1, Place(l - 1, |lines[l - 1]|))
    requires BackwardText(Between(lines, open.line, open.pos + 1, Place(l - 1, |lines[l - 1]|)), next)
             == Continue(below)
    ensures BackwardText(Between(lines, open.line, open.pos + 1, Place(l, i + 1)), from) == Continue(below)
  {
    var line := lines[l];
    assert line == line[..i + 1] + line[i + 1..];
    BackwardPrefix(line[..i + 1], line[i + 1..], i, from);
    BetweenLast(lines, open.line, open.pos + 1, Place(l, i + 1));
    BackwardOn(Between(lines, open.line, open.pos + 1, Place(l - 1, |lines[l - 1]|)), line[..i + 1], from, next);
  }

  /** A '>' that a backward scan takes for an angle bracket: it belongs to no arrow, comparison or operator. */
  predicate ClosesAngle(line: string, p: nat) {
    p < |line| && line[p] == '>' && !IsNoBracket(line, p)
  }

  lemma StartedOnAngle(lines: seq<string>, close: Place, open: Place)
    requires close.line < |lines| && ClosesAngle(lines[close.line], close.pos)
    requires BackwardFile(lines, close.line, close.pos, []) == Some(open)
    ensures Precedes(lines, open.line, open.pos + 1, close) && lines[open.line][open.pos] == '<'
    ensures BackwardText(Between(lines, open.line, open.pos + 1, close), ")") == Continue(")")
  {
    assert [] + ['>'] == ">";
    assert Strip(">") == [] && ")" + [] == ")";
    FoundAngleBackward(lines, close.line, close.pos - 1, ">", open);
    FileInAnglesBackward(lines, close.line, close.pos - 1, ">", ")", open);
    assert Place(close.line, close.pos - 1 + 1) == close;
  }

  /** Started on such a '>', a backward scan that succeeds has found a '<', and the text in between is nested. */
  lemma AnglesEncloseNestingBackward(lines: seq<string>, close: Place, open: Place) returns (t: Nested)
    requires close.line < |lines| && ClosesAngle(lines[close.line], close.pos)
    requires BackwardFile(lines, close.line, close.pos, []) == Some(open)
    ensures open.line < |lines| && open.pos < |lines[open.line]| && lines[open.line][open.pos] == '<'
    ensures Precedes(lines, open.line, open.pos + 1, close)
    ensures WellFormed(t) && Yield(t) == Between(lines, open.line, open.pos + 1, close)
  {
    StartedOnAngle(lines, close, open);
    t := NeutralBackwardIsNested(Between(lines, open.line, open.pos + 1, close));
  }

  /** The character makes a difference to a backward scan with an empty stack. */
  predicate IsLiveBackward(line: string, i: nat)
    requires i < |line|
  {
    IsOpener(line[i]) || IsCloser(line[i]) || line[i] == ';' || ClosesAngle(line, i)
  }

  /** The last such character up to i, -1 when there is none. */
  function LastLive(line: string, i: int): (k: int)
    requires -1 <= i < |line|
    ensures -1 <= k <= i
    ensures k >= 0 ==> IsLiveBackward(line, k)
    ensures forall j :: k < j <= i ==> !IsLiveBackward(line, j)
    decreases i
  {
    if i == -1 || IsLiveBackward(line, i) then i else LastLive(line, i - 1)
  }

  /** A character that is passed over makes no difference itself. */
  lemma SkipsNothingLive(line: string, i: nat)
    requires i < |line| && !IsLiveBackward(line, i) && BackwardMove(line, i, []).skip == 1
    ensures i > 0 && !IsLiveBackward(line, i - 1)
  {
    SkipsNoBracket(line, i, []);
    if line[i] == '>' && EndsInOperator(line, i) {
      OperatorEndsInNoBracket(line, i);
    }
  }

  lemma DeadMove(line: string, i: nat)
    requires i < |line| && !IsLiveBackward(line, i)
    ensures var m := BackwardMove(line, i, []); m.verdict == GoOn && m.stack == []
  {
  }

  lemma {:induction false} StartsAtLastLive(line: string, i: int)
    requires -1 <= i < |line|
    ensures BackwardRun(line, i, []) == BackwardRun(line, LastLive(line, i), [])
    decreases i
  {
    if i >= 0 && !IsLiveBackward(line, i) {
      DeadMove(line, i);
      var skip := BackwardMove(line, i, []).skip;
      if skip == 1 {
        SkipsNothingLive(line, i);
      }
      StartsAtLastLive(line, i - 1 - skip);
      assert BackwardRun(line, i, []) == BackwardRun(line, i - 1 - skip, []);
    }
  }

  lemma NothingStartsBackward(line: string, k: int)
    requires -1 <= k < |line| && (k >= 0 ==> IsOpener(line[k]) || line[k] == ';')
    ensures BackwardRun(line, k, []) == (-1, if k >= 0 then None else Some([]))
  {
  }

  lemma LiveDecidesBackward(lines: seq<string>, l: nat, k: int, open: Place)
    requires l < |lines| && -1 <= k < |lines[l]| && (k >= 0 ==> IsLiveBackward(lines[l], k))
    requires BackwardFile(lines, l, k, []) == Some(open)
    ensures open.line < |lines| && open.pos < |lines[open.line]| && k >= 0
    ensures lines[open.line][open.pos] == '<' <==> lines[l][k] == '>'
  {
    SomethingStartsBackward(lines, l, k, open);
    if IsCloser(lines[l][k]) {
      CloserFindsOpener(lines, l, k, open);
    } else {
      var _ := AnglesEncloseNestingBackward(lines, Place(l, k), open);
    }
  }

  lemma FileStartsAtLastLive(lines: seq<string>, l: nat, p: int)
    requires l < |lines| && -1 <= p < |lines[l]|
    ensures BackwardFile(lines, l, p, []) == BackwardFile(lines, l, LastLive(lines[l], p), [])
  {
    StartsAtLastLive(lines[l], p);
    SameRunSameMatchBackward(lines, l, p, LastLive(lines[l], p), [], []);
  }

  /** The exact condition for the backward scan. */
  lemma FindsAngleBackwardWhen(lines: seq<string>, l: nat, p: int, open: Place)
    requires l < |lines| && -1 <= p < |lines[l]| && BackwardFile(lines, l, p, []) == Some(open)
    ensures open.line < |lines| && open.pos < |lines[open.line]|
    ensures LastLive(lines[l], p) >= 0
    ensures lines[open.line][open.pos] == '<' <==> lines[l][LastLive(lines[l], p)] == '>'
  {
    FileStartsAtLastLive(lines, l, p);
    LiveDecidesBackward(lines, l, LastLive(lines[l], p), open);
  }

  lemma CloserFindsOpener(lines: seq<string>, l: nat, k: nat, open: Place)
    requires l < |lines| && k < |lines[l]| && IsCloser(lines[l][k]) && BackwardFile(lines, l, k, []) == Some(open)
    ensures open.line < |lines| && open.pos < |lines[open.line]| && IsOpener(lines[open.line][open.pos])
  {
    BackwardFileIsPlain(lines, l, k, []);
    var c := lines[l][k];
    assert [] + [c] == [c];
    ForwardFrom(lines, l, k - 1, [c], open);
  }

  lemma SomethingStartsBackward(lines: seq<string>, l: nat, k: int, open: Place)
    requires l < |lines| && -1 <= k < |lines[l]| && (k >= 0 ==> IsLiveBackward(lines[l], k))
    requires BackwardFile(lines, l, k, []) == Some(open)
    ensures k >= 0 && (IsCloser(lines[l][k]) || ClosesAngle(lines[l], k))
  {
    if k == -1 || IsOpener(lines[l][k]) || lines[l][k] == ';' {
      NothingStartsBackward(lines[l], k);
    }
  }
}
