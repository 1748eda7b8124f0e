// cpplint's two bracket matchers, forward and backward over many lines, and what their treatment of
// angle brackets, semicolons, arrows and operator names cannot change.

module Brackets {
  import opened Options
  import opened Trimming

  // ----- Characters -----

  predicate IsOpener(c: char) {
    c == '(' || c == '[' || c == '{'
  }

  predicate IsCloser(c: char) {
    c == ')' || c == ']' || c == '}'
  }

  predicate Pairs(open: char, close: char) {
    (open == '(' && close == ')') || (open == '[' && close == ']') || (open == '{' && close == '}')
  }

  predicate IsWord(c: char) {
    'a' <= c <= 'z' || 'A' <= c <= 'Z' || '0' <= c <= '9' || c == '_'
  }

  const OPERATOR := "operator"

  /** Where the text of line[..i] ends, less the whitespace at its end. */
  function TextEnd(line: string, i: nat): (k: nat)
    requires i <= |line|
    ensures k <= i && (k > 0 ==> !IsSpace(line[k - 1]))
    ensures forall j :: k <= j < i ==> IsSpace(line[j])
  {
    if i > 0 && IsSpace(line[i - 1]) then TextEnd(line, i - 1) else i
  }

  /** The search for \boperator\s*$ in line[..i]. */
  predicate EndsInOperator(line: string, i: nat)
    requires i <= |line|
  {
    var k := TextEnd(line, i);
    k >= 8 && (forall j :: 0 <= j < 8 ==> line[k - 8 + j] == OPERATOR[j]) && (k == 8 || !IsWord(line[k - 9]))
  }

  /** The match of \s>=\s at line[i]. */
  predicate SpacedGeAt(line: string, i: nat) {
    i + 3 < |line| && IsSpace(line[i]) && line[i + 1] == '>' && line[i + 2] == '=' && IsSpace(line[i + 3])
  }

  /** What makes the search for "operator" succeed ends in the word or in whitespace, never in a bracket. */
  lemma OperatorEndsInNoBracket(line: string, i: nat)
    requires i <= |line| && EndsInOperator(line, i)
    ensures i > 0 && (line[i - 1] == 'r' || IsSpace(line[i - 1]))
  {
    var k := TextEnd(line, i);
    assert line[k - 8 + 7] == OPERATOR[7] == 'r';
  }

  // ----- The plain matcher: the reference -----

  datatype Scan = Found(at: nat) | Mismatch | Continue(stack: string)

  /** Matches brackets rightwards from line[i], ignoring every other character. */
  function Forward(line: string, i: nat, stack: string): Scan
    decreases |line| - i
  {
    if i >= |line| then Continue(stack)
    else if IsOpener(line[i]) then Forward(line, i + 1, stack + [line[i]])
    else if IsCloser(line[i]) then
      if stack == [] || !Pairs(stack[|stack| - 1], line[i]) then Mismatch
      else if |stack| == 1 then Found(i)
      else Forward(line, i + 1, stack[..|stack| - 1])
    else Forward(line, i + 1, stack)
  }

  /** Matches brackets leftwards from line[i], ignoring every other character. */
  function Backward(line: string, i: int, stack: string): Scan
    requires i < |line|
    decreases i
  {
    if i < 0 then Continue(stack)
    else if IsCloser(line[i]) then Backward(line, i - 1, stack + [line[i]])
    else if IsOpener(line[i]) then
      if stack == [] || !Pairs(line[i], stack[|stack| - 1]) then Mismatch
      else if |stack| == 1 then Found(i)
      else Backward(line, i - 1, stack[..|stack| - 1])
    else Backward(line, i - 1, stack)
  }

  /** The matcher goes from one stack to the next over this character. */
  predicate Steps(c: char, from: string, next: string) {
    if IsOpener(c) then next == from + [c]
    else if IsCloser(c) then |from| > 1 && Pairs(from[|from| - 1], c) && next == from[..|from| - 1]
    else next == from
  }

  predicate StepsBack(c: char, from: string, next: string) {
    if IsCloser(c) then next == from + [c]
    else if IsOpener(c) then |from| > 1 && Pairs(c, from[|from| - 1]) && next == from[..|from| - 1]
    else next == from
  }

  lemma StepForward(line: string, i: nat, from: string, next: string)
    requires i < |line| && Steps(line[i], from, next)
    ensures Forward(line, i, from) == Forward(line, i + 1, next)
  {
  }

  lemma StepBackward(line: string, i: nat, from: string, next: string)
    requires i < |line| && StepsBack(line[i], from, next)
    ensures Backward(line, i, from) == Backward(line, i - 1, next)
  {
  }

  /** A position in a file. */
  datatype Place = Place(line: nat, pos: nat)

  function ForwardLines(lines: seq<string>, l: nat, i: nat, stack: string): Option<Place>
    decreases |lines| - l
  {
    if l >= |lines| then None
    else match Forward(lines[l], i, stack)
      case Found(at) => Some(Place(l, at))
      case Mismatch => None
      case Continue(rest) => ForwardLines(lines, l + 1, 0, rest)
  }

  function BackwardLines(lines: seq<string>, l: nat, i: int, stack: string): Option<Place>
    requires l < |lines| && i < |lines[l]|
    decreases l
  {
    match Backward(lines[l], i, stack)
    case Found(at) => Some(Place(l, at))
    case Mismatch => None
    case Continue(rest) => if l == 0 then None else BackwardLines(lines, l - 1, |lines[l - 1]| - 1, rest)
  }

  // ----- Stacks with angle brackets on them -----

  /** The stack without its angle brackets. */
  function Strip(stack: string): string {
    if stack == [] then []
    else Strip(stack[..|stack| - 1])
         + if IsOpener(stack[|stack| - 1]) || IsCloser(stack[|stack| - 1]) then [stack[|stack| - 1]] else []
  }

  /** The bottom of the stack is a bracket. */
  predicate Rooted(stack: string) {
    stack != [] && (IsOpener(stack[0]) || IsCloser(stack[0]))
  }

  lemma StripPush(stack: string, c: char)
    ensures Strip(stack + [c]) == Strip(stack) + if IsOpener(c) || IsCloser(c) then [c] else []
    ensures Rooted(stack) ==> Rooted(stack + [c])
  {
    assert (stack + [c])[..|stack|] == stack;
  }

  /** A rooted stack strips to a non-empty one with the same bottom, and removing an angle bracket from the
      top leaves it rooted. */
  lemma {:induction false} StripRooted(stack: string)
    requires Rooted(stack)
    ensures Strip(stack) != [] && Strip(stack)[0] == stack[0]
    ensures var top := stack[|stack| - 1];
            if IsOpener(top) || IsCloser(top) then Strip(stack)[|Strip(stack)| - 1] == top
            else Rooted(stack[..|stack| - 1]) && Strip(stack[..|stack| - 1]) == Strip(stack)
  {
    if |stack| > 1 {
      StripRooted(stack[..|stack| - 1]);
    } else {
      assert stack[..0] == [];
    }
  }

  /** The stack without the angle brackets on top of it: what the inner loops leave when they discard unmatched
      ones. */
  function DropAngles(stack: string, angle: char): (rest: string)
    ensures rest <= stack && (rest != [] ==> rest[|rest| - 1] != angle)
    ensures forall i :: |rest| <= i < |stack| ==> stack[i] == angle
  {
    if stack != [] && stack[|stack| - 1] == angle then DropAngles(stack[..|stack| - 1], angle) else stack
  }

  /** Dropping angle brackets never reaches the bracket at the bottom. */
  lemma {:induction false} DropsNoBracket(stack: string, angle: char)
    requires !IsOpener(angle) && !IsCloser(angle) && Rooted(stack)
    ensures Rooted(DropAngles(stack, angle)) && Strip(DropAngles(stack, angle)) == Strip(stack)
  {
    if stack[|stack| - 1] == angle {
      StripRooted(stack);
      DropsNoBracket(stack[..|stack| - 1], angle);
    }
  }

  /** The stack of a forward scan that began on an opening bracket: openers and '<', a bracket at the bottom. */
  predicate Opening(stack: string) {
    Rooted(stack) && forall i :: 0 <= i < |stack| ==> stack[i] == '<' || IsOpener(stack[i])
  }

  /** The stack of a backward scan that began on a closing bracket. */
  predicate Closing(stack: string) {
    Rooted(stack) && forall i :: 0 <= i < |stack| ==> stack[i] == '>' || IsCloser(stack[i])
  }

  /** Popping a bracket pops it from the stripped stack, and empties both or neither. */
  lemma PopBracket(stack: string)
    requires Rooted(stack) && (IsOpener(stack[|stack| - 1]) || IsCloser(stack[|stack| - 1]))
    ensures var n := |Strip(stack)|;
            && n > 0 && Strip(stack)[n - 1] == stack[|stack| - 1]
            && Strip(stack[..|stack| - 1]) == Strip(stack)[..n - 1]
            && (n == 1 <==> |stack| == 1)
            && (|stack| > 1 ==> Rooted(stack[..|stack| - 1]))
  {
    if |stack| > 1 {
      StripRooted(stack[..|stack| - 1]);
    }
  }

  // ----- Scanning one line forward -----

  /** What one character does to a scan: go on, give up, or find the match here. */
  datatype Verdict = GoOn | GiveUp | Matched

  /** The stack after one character, the verdict, and how many characters are passed over with it. */
  datatype Move = Move(stack: string, verdict: Verdict, skip: nat)

  /** The move that takes the top off the stack. */
  function Popped(stack: string): Move
    requires stack != []
  {
    Move(stack[..|stack| - 1], if |stack| == 1 then Matched else GoOn, 0)
  }

  function Settled(stack: string): Move {
    Move(stack, if stack == [] then GiveUp else GoOn, 0)
  }

  predicate TopIs(stack: string, c: char) {
    stack != [] && stack[|stack| - 1] == c
  }

  function CloserMove(c: char, stack: string): Move {
    var rest := DropAngles(stack, '<');
    if rest == [] || !Pairs(rest[|rest| - 1], c) then Move(rest, GiveUp, 0) else Popped(rest)
  }

  /** Whether the '<' at line[i] is part of a left shift or of an operator's name. */
  predicate ShiftsLeft(line: string, i: nat) {
    0 < i <= |line| && line[i - 1] == '<'
  }

  predicate NamesOperator(line: string, i: nat) {
    0 < i <= |line| && EndsInOperator(line, i)
  }

  function AngleMove(line: string, i: nat, stack: string): Move
    requires i < |line|
  {
    if line[i] == '<' then
      if ShiftsLeft(line, i) then (if TopIs(stack, '<') then Settled(stack[..|stack| - 1]) else Move(stack, GoOn, 0))
      else if NamesOperator(line, i) then Move(stack, GoOn, 0)
      else Move(stack + ['<'], GoOn, 0)
    else if line[i] == '>' then
      if i > 0 && (line[i - 1] == '-' || EndsInOperator(line, i - 1)) then Move(stack, GoOn, 0)
      else if TopIs(stack, '<') then Popped(stack) else Move(stack, GoOn, 0)
    else
      Settled(DropAngles(stack, '<'))
  }

  function ForwardMove(line: string, i: nat, stack: string): Move
    requires i < |line|
  {
    var c := line[i];
    if IsOpener(c) then Move(stack + [c], GoOn, 0)
    else if IsCloser(c) then CloserMove(c, stack)
    else if c == '<' || c == '>' || c == ';' then AngleMove(line, i, stack)
    else Move(stack, GoOn, 0)
  }

  /** A scan of one line: the position past the match or -1, and the stack unless it gave up or succeeded. */
  function ForwardRun(line: string, i: nat, stack: string): (r: (int, Option<string>))
    ensures r.0 == -1 || i < r.0 <= |line|
    decreases |line| - i
  {
    if i >= |line| then (-1, Some(stack))
    else
      var m := ForwardMove(line, i, stack);
      match m.verdict
      case GoOn => ForwardRun(line, i + 1, m.stack)
      case GiveUp => (-1, None)
      case Matched => (i + 1, None)
  }

  method FindEndOfExpressionInLine(line: string, startpos: nat, initial: string)
    returns (end: int, stack: Option<string>)
    ensures (end, stack) == ForwardRun(line, startpos, initial)
  {
    var st := initial;
    var i := startpos;
    while i < |line|
      invariant startpos <= i
      invariant ForwardRun(line, startpos, initial) == ForwardRun(line, i, st)
    {
      var m := ForwardMove(line, i, st);
      st := m.stack;
      if m.verdict.GiveUp? {
        return -1, None;
      }
      if m.verdict.Matched? {
        return i + 1, None;
      }
      i := i + 1;
    }
    return -1, Some(st);
  }

  // ----- Scanning one line backward -----

  function OpenerMove(c: char, stack: string): Move {
    var rest := DropAngles(stack, '>');
    if rest == [] || !Pairs(c, rest[|rest| - 1]) then Move(rest, GiveUp, 0) else Popped(rest)
  }

  /** Whether the '>' at line[i] belongs to "->", ">=" or an operator's name. */
  predicate IsNoBracket(line: string, i: nat) {
    0 < i < |line| && (line[i - 1] == '-' || SpacedGeAt(line, i - 1) || EndsInOperator(line, i))
  }

  function BackwardAngleMove(line: string, i: nat, stack: string): Move
    requires i < |line|
  {
    if line[i] == '>' then
      if IsNoBracket(line, i) then Move(stack, GoOn, 1) else Move(stack + ['>'], GoOn, 0)
    else if line[i] == '<' then
      if ShiftsLeft(line, i) then Move(stack, GoOn, 1)
      else if TopIs(stack, '>') then Popped(stack) else Move(stack, GoOn, 0)
    else
      Settled(DropAngles(stack, '>'))
  }

  function BackwardMove(line: string, i: nat, stack: string): (m: Move)
    requires i < |line|
    ensures m.skip <= 1 && (m.skip == 1 ==> i > 0)
  {
    var c := line[i];
    if IsCloser(c) then Move(stack + [c], GoOn, 0)
    else if IsOpener(c) then OpenerMove(c, stack)
    else if c == '<' || c == '>' || c == ';' then BackwardAngleMove(line, i, stack)
    else Move(stack, GoOn, 0)
  }

  function BackwardRun(line: string, i: int, stack: string): (r: (int, Option<string>))
    requires i < |line|
    ensures r.0 == -1 || 0 <= r.0 <= i
    decreases i
  {
    if i < 0 then (-1, Some(stack))
    else
      var m := BackwardMove(line, i, stack);
      match m.verdict
      case GoOn => BackwardRun(line, i - 1 - m.skip, m.stack)
      case GiveUp => (-1, None)
      case Matched => (i, None)
  }

  method FindStartOfExpressionInLine(line: string, endpos: int, initial: string)
    returns (start: int, stack: Option<string>)
    requires endpos < |line|
    ensures (start, stack) == BackwardRun(line, endpos, initial)
  {
    var st := initial;
    var i := endpos;
    while i >= 0
      invariant i <= endpos
      invariant BackwardRun(line, endpos, initial) == BackwardRun(line, i, st)
    {
      var m := BackwardMove(line, i, st);
      st := m.stack;
      if m.verdict.GiveUp? {
        return -1, None;
      }
      if m.verdict.Matched? {
        return i, None;
      }
      i := i - 1 - m.skip;
    }
    return -1, Some(st);
  }

  // ----- Scanning many lines -----

  /** The place of the match, scanning from line l on with this stack. */
  function ForwardFile(lines: seq<string>, l: nat, i: nat, stack: string): Option<Place>
    requires l < |lines|
    decreases |lines| - l, 1
  {
    var (end, rest) := ForwardRun(lines[l], i, stack);
    if end > -1 then Some(Place(l, end - 1)) else ForwardRest(lines, l, rest)
  }

  /** The same after line l, which left this stack. */
  function ForwardRest(lines: seq<string>, l: nat, stack: Option<string>): Option<Place>
    requires l < |lines|
    decreases |lines| - l, 0
  {
    if stack.None? || stack.value == [] || l + 1 == |lines| then None else ForwardFile(lines, l + 1, 0, stack.value)
  }

  function BackwardFile(lines: seq<string>, l: nat, i: int, stack: string): Option<Place>
    requires l < |lines| && i < |lines[l]|
    decreases l, 1
  {
    var (start, rest) := BackwardRun(lines[l], i, stack);
    if start > -1 then Some(Place(l, start)) else BackwardRest(lines, l, rest)
  }

  function BackwardRest(lines: seq<string>, l: nat, stack: Option<string>): Option<Place>
    requires l < |lines|
    decreases l, 0
  {
    if stack.None? || stack.value == [] || l == 0 then None
    else BackwardFile(lines, l - 1, |lines[l - 1]| - 1, stack.value)
  }

  /** What the scan from line l finds depends only on what it returns for that line. */
  lemma SameRunSameMatch(lines: seq<string>, l: nat, i: nat, j: nat, a: string, b: string)
    requires l < |lines| && ForwardRun(lines[l], i, a) == ForwardRun(lines[l], j, b)
    ensures ForwardFile(lines, l, i, a) == ForwardFile(lines, l, j, b)
  {
    var (end, rest) := ForwardRun(lines[l], i, a);
    if end == -1 {
      assert ForwardFile(lines, l, i, a) == ForwardRest(lines, l, rest);
      assert ForwardFile(lines, l, j, b) == ForwardRest(lines, l, rest);
    }
  }

  lemma SameRunSameMatchBackward(lines: seq<string>, l: nat, i: int, j: int, a: string, b: string)
    requires l < |lines| && i < |lines[l]| && j < |lines[l]|
    requires BackwardRun(lines[l], i, a) == BackwardRun(lines[l], j, b)
    ensures BackwardFile(lines, l, i, a) == BackwardFile(lines, l, j, b)
  {
    var (start, rest) := BackwardRun(lines[l], i, a);
    if start == -1 {
      assert BackwardFile(lines, l, i, a) == BackwardRest(lines, l, rest);
      assert BackwardFile(lines, l, j, b) == BackwardRest(lines, l, rest);
    }
  }

  /** A position that CloseExpression works from: an opening bracket, or a '<' that is not the first of "<<"
      or "<=". */
  predicate Starts(line: string, pos: nat) {
    pos < |line| && (IsOpener(line[pos])
                     || (line[pos] == '<' && !(pos + 1 < |line| && (line[pos + 1] == '<' || line[pos + 1] == '='))))
  }

  function ForwardMatch(lines: seq<string>, linenum: nat, pos: nat): Option<Place>
    requires linenum < |lines|
  {
    if Starts(lines[linenum], pos) then ForwardFile(lines, linenum, pos, []) else None
  }

  function BackwardMatch(lines: seq<string>, linenum: nat, pos: nat): Option<Place>
    requires linenum < |lines| && pos < |lines[linenum]|
  {
    if IsCloser(lines[linenum][pos]) || lines[linenum][pos] == '>' then BackwardFile(lines, linenum, pos, []) else None
  }

  /** The line and position just past the bracket that closes the one at (linenum, pos), or the number of
      lines and -1. */
  method CloseExpression(lines: seq<string>, linenum: nat, pos: nat) returns (endLine: nat, endPos: int)
    requires linenum < |lines| && pos < |lines[linenum]|
    ensures match ForwardMatch(lines, linenum, pos)
            case None => endLine == |lines| && endPos == -1
            case Some(at) => endLine == at.line && endPos == at.pos + 1
  {
    var line := lines[linenum];
    if !(IsOpener(line[pos]) || line[pos] == '<')
       || (line[pos] == '<' && pos + 1 < |line| && (line[pos + 1] == '<' || line[pos + 1] == '=')) {
      return |lines|, -1;
    }
    var end, stack := FindEndOfExpressionInLine(line, pos, []);
    if end > -1 {
      return linenum, end;
    }
    endLine, endPos := ContinueForward(lines, linenum, stack);
  }

  /** The loop of CloseExpression over the lines after the first. */
  method ContinueForward(lines: seq<string>, linenum: nat, initial: Option<string>)
    returns (endLine: nat, endPos: int)
    requires linenum < |lines|
    ensures match ForwardRest(lines, linenum, initial)
            case None => endLine == |lines| && endPos == -1
            case Some(at) => endLine == at.line && endPos == at.pos + 1
  {
    var l: nat, stack := linenum, initial;
    while stack.Some? && stack.value != [] && l < |lines| - 1
      invariant l < |lines| && ForwardRest(lines, linenum, initial) == ForwardRest(lines, l, stack)
      decreases |lines| - l
    {
      l := l + 1;
      var end;
      end, stack := FindEndOfExpressionInLine(lines[l], 0, stack.value);
      if end > -1 {
        return l, end;
      }
    }
    return |lines|, -1;
  }

  /** The line and position of the bracket that opens the one at (linenum, pos), or 0 and -1. */
  method ReverseCloseExpression(lines: seq<string>, linenum: nat, pos: nat) returns (startLine: nat, startPos: int)
    requires linenum < |lines| && pos < |lines[linenum]|
    ensures match BackwardMatch(lines, linenum, pos)
            case None => startLine == 0 && startPos == -1
            case Some(at) => startLine == at.line && startPos == at.pos
  {
    var line := lines[linenum];
    if !(IsCloser(line[pos]) || line[pos] == '>') {
      return 0, -1;
    }
    var start, stack := FindStartOfExpressionInLine(line, pos, []);
    if start > -1 {
      return linenum, start;
    }
    startLine, startPos := ContinueBackward(lines, linenum, stack);
  }

  /** The loop of ReverseCloseExpression over the lines before the first. */
  method ContinueBackward(lines: seq<string>, linenum: nat, initial: Option<string>)
    returns (startLine: nat, startPos: int)
    requires linenum < |lines|
    ensures match BackwardRest(lines, linenum, initial)
            case None => startLine == 0 && startPos == -1
            case Some(at) => startLine == at.line && startPos == at.pos
  {
    var l: nat, stack := linenum, initial;
    while stack.Some? && stack.value != [] && l > 0
      invariant l < |lines| && BackwardRest(lines, linenum, initial) == BackwardRest(lines, l, stack)
      decreases l
    {
      l := l - 1;
      var start;
      start, stack := FindStartOfExpressionInLine(lines[l], |lines[l]| - 1, stack.value);
      if start > -1 {
        return l, start;
      }
    }
    return 0, -1;
  }

  // ----- Started on a bracket, the scans are the plain matcher -----

  /** A stack the forward scan can have at line[i] when it began on a bracket. */
  predicate ForwardState(line: string, i: nat, stack: string) {
    Opening(stack) || (stack == [] && i < |line| && IsOpener(line[i]))
  }

  lemma PushAngle(stack: string, angle: char)
    requires angle == '<' || angle == '>'
    ensures angle == '<' && Opening(stack) ==> Opening(stack + [angle]) && Strip(stack + [angle]) == Strip(stack)
    ensures angle == '>' && Closing(stack) ==> Closing(stack + [angle]) && Strip(stack + [angle]) == Strip(stack)
  {
    StripPush(stack, angle);
  }

  lemma PopAngle(stack: string, angle: char)
    requires (angle == '<' || angle == '>') && TopIs(stack, angle)
    ensures var rest := stack[..|stack| - 1];
            && (Opening(stack) ==> Opening(rest) && Strip(rest) == Strip(stack))
            && (Closing(stack) ==> Closing(rest) && Strip(rest) == Strip(stack))
  {
    if Rooted(stack) {
      StripRooted(stack);
    }
  }

  lemma DropKeeps(stack: string, angle: char)
    requires angle == '<' || angle == '>'
    ensures var rest := DropAngles(stack, angle);
            && (Opening(stack) ==> Opening(rest) && Strip(rest) == Strip(stack))
            && (Closing(stack) ==> Closing(rest) && Strip(rest) == Strip(stack))
  {
    if Rooted(stack) {
      DropsNoBracket(stack, angle);
    }
  }

  /** '<', '>' and ';' leave a scan that began on a bracket where it was. */
  lemma AnglesAreIgnored(line: string, i: nat, stack: string)
    requires i < |line| && Opening(stack)
    ensures var m := AngleMove(line, i, stack);
            m.verdict.GoOn? && Opening(m.stack) && Strip(m.stack) == Strip(stack)
  {
    PushAngle(stack, '<');
    if TopIs(stack, '<') {
      PopAngle(stack, '<');
    }
    DropKeeps(stack, '<');
  }

  /** A closer does what it does in the plain matcher. */
  lemma CloserIsPlain(c: char, stack: string)
    requires IsCloser(c) && Opening(stack)
    ensures var m, plain := CloserMove(c, stack), Strip(stack);
            plain != [] &&
            if !Pairs(plain[|plain| - 1], c) then m.verdict.GiveUp?
            else if |plain| == 1 then m.verdict.Matched?
            else m.verdict.GoOn? && Opening(m.stack) && Strip(m.stack) == plain[..|plain| - 1]
  {
    DropsNoBracket(stack, '<');
    var rest := DropAngles(stack, '<');
    PopBracket(rest);
  }

  /** Every character of a scan that began on a bracket is a step of the plain matcher. */
  lemma ForwardMoveIsPlain(line: string, i: nat, stack: string)
    requires i < |line| && ForwardState(line, i, stack)
    ensures var m, plain := ForwardMove(line, i, stack), Forward(line, i, Strip(stack));
            match m.verdict
            case GoOn => Opening(m.stack) && plain == Forward(line, i + 1, Strip(m.stack))
            case GiveUp => plain == Mismatch
            case Matched => plain == Found(i)
  {
    var c := line[i];
    if IsOpener(c) {
      StripPush(stack, c);
    } else if IsCloser(c) {
      CloserIsPlain(c, stack);
    } else if c == '<' || c == '>' || c == ';' {
      AnglesAreIgnored(line, i, stack);
    }
  }

  /** What a scan of one line returns against the plain matcher; `offset` is what the position exceeds the
      bracket's by. */
  predicate Agrees(plain: Scan, end: int, stack: Option<string>, offset: nat) {
    match plain
    case Found(at) => end == at + offset && stack == None
    case Mismatch => end == -1 && stack == None
    case Continue(rest) => end == -1 && stack.Some? && Strip(stack.value) == rest
  }

  lemma {:induction false} ForwardRunIsPlain(line: string, i: nat, stack: string)
    requires ForwardState(line, i, stack)
    ensures var (end, rest) := ForwardRun(line, i, stack);
            Agrees(Forward(line, i, Strip(stack)), end, rest, 1) && (rest.Some? ==> Opening(rest.value))
    decreases |line| - i
  {
    if i < |line| {
      ForwardMoveIsPlain(line, i, stack);
      var m := ForwardMove(line, i, stack);
      if m.verdict.GoOn? {
        ForwardRunIsPlain(line, i + 1, m.stack);
      }
    }
  }

  /** Started on a bracket, and over any number of lines, the forward scan is the plain matcher. */
  lemma {:induction false} ForwardFileIsPlain(lines: seq<string>, l: nat, i: nat, stack: string)
    requires l < |lines| && ForwardState(lines[l], i, stack)
    ensures ForwardFile(lines, l, i, stack) == ForwardLines(lines, l, i, Strip(stack))
    decreases |lines| - l
  {
    ForwardRunIsPlain(lines[l], i, stack);
    var (end, rest) := ForwardRun(lines[l], i, stack);
    if end == -1 && rest.Some? && l + 1 < |lines| {
      ForwardFileIsPlain(lines, l + 1, 0, rest.value);
    }
  }

  predicate BackwardState(line: string, i: int, stack: string) {
    Closing(stack) || (stack == [] && 0 <= i < |line| && IsCloser(line[i]))
  }

  /** '<', '>' and ';' leave a scan that began on a bracket where it was. */
  lemma AnglesAreIgnoredBackward(line: string, i: nat, stack: string)
    requires i < |line| && Closing(stack)
    ensures var m := BackwardAngleMove(line, i, stack);
            m.verdict.GoOn? && Closing(m.stack) && Strip(m.stack) == Strip(stack)
  {
    PushAngle(stack, '>');
    if TopIs(stack, '>') {
      PopAngle(stack, '>');
    }
    DropKeeps(stack, '>');
  }

  /** A character that is skipped with an angle bracket is never a bracket. */
  lemma SkipsNoBracket(line: string, i: nat, stack: string)
    requires i < |line| && BackwardAngleMove(line, i, stack).skip == 1
    ensures i > 0 && !IsOpener(line[i - 1]) && !IsCloser(line[i - 1])
  {
    if line[i] == '>' && EndsInOperator(line, i) {
      OperatorEndsInNoBracket(line, i);
    }
  }

  lemma OpenerIsPlain(c: char, stack: string)
    requires IsOpener(c) && Closing(stack)
    ensures var m, plain := OpenerMove(c, stack), Strip(stack);
            plain != [] &&
            if !Pairs(c, plain[|plain| - 1]) then m.verdict.GiveUp?
            else if |plain| == 1 then m.verdict.Matched?
            else m.verdict.GoOn? && m.skip == 0 && Closing(m.stack) && Strip(m.stack) == plain[..|plain| - 1]
  {
    DropsNoBracket(stack, '>');
    var rest := DropAngles(stack, '>');
    PopBracket(rest);
  }

  /** What the plain matcher does with the characters a move passes over. */
  lemma PlainPassesOver(line: string, i: nat, skip: nat, plain: string)
    requires i < |line| && !IsOpener(line[i]) && !IsCloser(line[i]) && skip <= 1
    requires skip == 1 ==> i > 0 && !IsOpener(line[i - 1]) && !IsCloser(line[i - 1])
    ensures Backward(line, i, plain) == Backward(line, i - 1 - skip, plain)
  {
  }

  lemma PlainOpener(line: string, i: nat, plain: string)
    requires i < |line| && IsOpener(line[i]) && plain != []
    ensures Backward(line, i, plain) ==
            if !Pairs(line[i], plain[|plain| - 1]) then Mismatch
            else if |plain| == 1 then Found(i)
            else Backward(line, i - 1, plain[..|plain| - 1])
  {
  }

  /** The move from a backward scan's stack is the plain matcher's. */
  predicate IsPlainBackward(line: string, i: nat, stack: string, m: Move)
    requires i < |line|
  {
    var plain := Backward(line, i, Strip(stack));
    match m.verdict
    case GoOn => m.skip <= i && Closing(m.stack) && plain == Backward(line, i - 1 - m.skip, Strip(m.stack))
    case GiveUp => plain == Mismatch
    case Matched => plain == Found(i)
  }

  /** The move of an opener is the plain matcher's. */
  lemma OpenerMoveIsPlain(line: string, i: nat, stack: string)
    requires i < |line| && IsOpener(line[i]) && Closing(stack)
    ensures IsPlainBackward(line, i, stack, OpenerMove(line[i], stack))
  {
    OpenerIsPlain(line[i], stack);
    PlainOpener(line, i, Strip(stack));
  }

  /** So is that of an angle bracket or a semicolon, with the character it skips. */
  lemma AngleMoveIsPlain(line: string, i: nat, stack: string)
    requires i < |line| && (line[i] == '<' || line[i] == '>' || line[i] == ';') && Closing(stack)
    ensures IsPlainBackward(line, i, stack, BackwardAngleMove(line, i, stack))
  {
    AnglesAreIgnoredBackward(line, i, stack);
    var skip := BackwardAngleMove(line, i, stack).skip;
    if skip == 1 {
      SkipsNoBracket(line, i, stack);
    }
    PlainPassesOver(line, i, skip, Strip(stack));
  }

  lemma BackwardMoveIsPlain(line: string, i: nat, stack: string)
    requires i < |line| && BackwardState(line, i, stack)
    ensures IsPlainBackward(line, i, stack, BackwardMove(line, i, stack))
  {
    var c := line[i];
    if IsCloser(c) {
      StripPush(stack, c);
    } else if IsOpener(c) {
      OpenerMoveIsPlain(line, i, stack);
    } else if c == '<' || c == '>' || c == ';' {
      AngleMoveIsPlain(line, i, stack);
    }
  }

  lemma {:induction false} BackwardRunIsPlain(line: string, i: int, stack: string)
    requires i < |line| && BackwardState(line, i, stack)
    ensures var (start, rest) := BackwardRun(line, i, stack);
            Agrees(Backward(line, i, Strip(stack)), start, rest, 0) && (rest.Some? ==> Closing(rest.value))
    decreases i
  {
    if i >= 0 {
      BackwardMoveIsPlain(line, i, stack);
      var m := BackwardMove(line, i, stack);
      if m.verdict.GoOn? {
        BackwardRunIsPlain(line, i - 1 - m.skip, m.stack);
      }
    }
  }

  /** Started on a bracket, and over any number of lines, the backward scan is the plain matcher. */
  lemma {:induction false} BackwardFileIsPlain(lines: seq<string>, l: nat, i: int, stack: string)
    requires l < |lines| && i < |lines[l]| && BackwardState(lines[l], i, stack)
    ensures BackwardFile(lines, l, i, stack) == BackwardLines(lines, l, i, Strip(stack))
    decreases l
  {
    BackwardRunIsPlain(lines[l], i, stack);
    var (start, rest) := BackwardRun(lines[l], i, stack);
    if start == -1 && rest.Some? && l > 0 {
      BackwardFileIsPlain(lines, l - 1, |lines[l - 1]| - 1, rest.value);
    }
  }

  // ----- The two scans invert each other -----

  function Partner(c: char): char {
    match c
    case '(' => ')' case '[' => ']' case '{' => '}'
    case ')' => '(' case ']' => '[' case '}' => '{'
    case _ => c
  }

  function Mirror(stack: string): (m: string)
    ensures |m| == |stack| && forall i :: 0 <= i < |stack| ==> m[i] == Partner(stack[i])
  {
    seq(|stack|, i requires 0 <= i < |stack| => Partner(stack[i]))
  }

  predicate Openers(stack: string) {
    forall i :: 0 <= i < |stack| ==> IsOpener(stack[i])
  }

  predicate Closers(stack: string) {
    forall i :: 0 <= i < |stack| ==> IsCloser(stack[i])
  }

  /** If the forward scan from (l, i) with `stack` finds its match at `goal`, the backward scan from `goal`
      arrives just before (l, i) with the mirrored stack. */
  lemma {:induction false} BackFrom(lines: seq<string>, l: nat, i: nat, stack: string, goal: Place)
    requires l < |lines| && i <= |lines[l]| && stack != [] && Openers(stack)
    requires ForwardLines(lines, l, i, stack) == Some(goal)
    ensures goal.line < |lines| && goal.pos < |lines[goal.line]| && Pairs(stack[0], lines[goal.line][goal.pos])
    ensures BackwardLines(lines, goal.line, goal.pos, []) == BackwardLines(lines, l, i - 1, Mirror(stack))
    decreases |lines| - l, |lines[l]| - i
  {
    var line := lines[l];
    if i == |line| {
      assert l + 1 < |lines|;
      BackFrom(lines, l + 1, 0, stack, goal);
    } else if IsOpener(line[i]) {
      BackFrom(lines, l, i + 1, stack + [line[i]], goal);
      assert Mirror(stack + [line[i]])[..|stack|] == Mirror(stack);
    } else if IsCloser(line[i]) {
      var top := stack[|stack| - 1];
      var rest := stack[..|stack| - 1];
      assert Mirror(rest) + [line[i]] == Mirror(stack);
      if rest != [] {
        BackFrom(lines, l, i + 1, rest, goal);
      } else {
        assert [] + [line[i]] == Mirror(stack);
      }
    } else {
      BackFrom(lines, l, i + 1, stack, goal);
    }
  }

  /** If the backward scan from (l, i) with `stack` finds its match at `goal`, the forward scan from `goal`
      arrives just after (l, i) with the mirrored stack. */
  lemma {:induction false} ForwardFrom(lines: seq<string>, l: nat, i: int, stack: string, goal: Place)
    requires l < |lines| && -1 <= i < |lines[l]| && stack != [] && Closers(stack)
    requires BackwardLines(lines, l, i, stack) == Some(goal)
    ensures goal.line < |lines| && goal.pos < |lines[goal.line]| && Pairs(lines[goal.line][goal.pos], stack[0])
    ensures ForwardLines(lines, goal.line, goal.pos, []) == ForwardLines(lines, l, i + 1, Mirror(stack))
    decreases l, i
  {
    var line := lines[l];
    if i == -1 {
      ForwardFrom(lines, l - 1, |lines[l - 1]| - 1, stack, goal);
    } else if IsCloser(line[i]) {
      ForwardFrom(lines, l, i - 1, stack + [line[i]], goal);
      assert Mirror(stack + [line[i]])[..|stack|] == Mirror(stack);
    } else if IsOpener(line[i]) {
      var rest := stack[..|stack| - 1];
      assert Mirror(rest) + [line[i]] == Mirror(stack);
      if rest != [] {
        ForwardFrom(lines, l, i - 1, rest, goal);
      } else {
        assert [] + [line[i]] == Mirror(stack);
      }
    } else {
      ForwardFrom(lines, l, i - 1, stack, goal);
    }
  }

  /** The scans are inverse: forward from an opening bracket succeeds at a place if and only if that place
      holds a closing bracket from which backward succeeds at the opening one. */
  lemma ScansAreInverse(lines: seq<string>, open: Place, close: Place)
    requires open.line < |lines| && open.pos < |lines[open.line]|
    requires close.line < |lines| && close.pos < |lines[close.line]|
    ensures (IsOpener(lines[open.line][open.pos]) && ForwardLines(lines, open.line, open.pos, []) == Some(close)) <==>
            (IsCloser(lines[close.line][close.pos]) && BackwardLines(lines, close.line, close.pos, []) == Some(open))
  {
    var o, c := lines[open.line][open.pos], lines[close.line][close.pos];
    if IsOpener(o) && ForwardLines(lines, open.line, open.pos, []) == Some(close) {
      assert [] + [o] == [o];
      BackFrom(lines, open.line, open.pos + 1, [o], close);
      assert Mirror([o]) == [Partner(o)];
    }
    if IsCloser(c) && BackwardLines(lines, close.line, close.pos, []) == Some(open) {
      assert [] + [c] == [c];
      ForwardFrom(lines, close.line, close.pos - 1, [c], open);
      assert Mirror([c]) == [Partner(c)];
    }
  }

  /** So are CloseExpression and ReverseCloseExpression, with all they do about angle brackets. */
  lemma ExpressionsAreInverse(lines: seq<string>, open: Place, close: Place)
    requires open.line < |lines| && open.pos < |lines[open.line]|
    requires close.line < |lines| && close.pos < |lines[close.line]|
    ensures (IsOpener(lines[open.line][open.pos]) && ForwardMatch(lines, open.line, open.pos) == Some(close)) <==>
            (IsCloser(lines[close.line][close.pos]) && BackwardMatch(lines, close.line, close.pos) == Some(open))
  {
    if IsOpener(lines[open.line][open.pos]) {
      ForwardFileIsPlain(lines, open.line, open.pos, []);
    }
    if IsCloser(lines[close.line][close.pos]) {
      BackwardFileIsPlain(lines, close.line, close.pos, []);
    }
    ScansAreInverse(lines, open, close);
  }

  /** From a bracket, CloseExpression answers just past a bracket of the same kind, and ReverseCloseExpression
      from there answers where it began. */
  lemma ClosesItsPartner(lines: seq<string>, linenum: nat, pos: nat, at: Place)
    requires linenum < |lines| && pos < |lines[linenum]| && ForwardMatch(lines, linenum, pos) == Some(at)
    requires lines[linenum][pos] == '(' || lines[linenum][pos] == '[' || lines[linenum][pos] == '{'
    ensures at.line < |lines| && at.pos < |lines[at.line]|
    ensures lines[linenum][pos] == '(' ==> lines[at.line][at.pos] == ')'
    ensures lines[linenum][pos] == '[' ==> lines[at.line][at.pos] == ']'
    ensures lines[linenum][pos] == '{' ==> lines[at.line][at.pos] == '}'
    ensures BackwardMatch(lines, at.line, at.pos) == Some(Place(linenum, pos))
  {
    var o := lines[linenum][pos];
    assert [] + [o] == [o];
    ForwardFileIsPlain(lines, linenum, pos, []);
    BackFrom(lines, linenum, pos + 1, [o], at);
    ExpressionsAreInverse(lines, Place(linenum, pos), at);
  }

  lemma OpensItsPartner(lines: seq<string>, linenum: nat, pos: nat, at: Place)
    requires linenum < |lines| && pos < |lines[linenum]| && BackwardMatch(lines, linenum, pos) == Some(at)
    requires lines[linenum][pos] == ')' || lines[linenum][pos] == ']' || lines[linenum][pos] == '}'
    ensures at.line < |lines| && at.pos < |lines[at.line]|
    ensures lines[linenum][pos] == ')' ==> lines[at.line][at.pos] == '('
    ensures lines[linenum][pos] == ']' ==> lines[at.line][at.pos] == '['
    ensures lines[linenum][pos] == '}' ==> lines[at.line][at.pos] == '{'
    ensures ForwardMatch(lines, at.line, at.pos) == Some(Place(linenum, pos))
  {
    var c := lines[linenum][pos];
    assert [] + [c] == [c];
    BackwardFileIsPlain(lines, linenum, pos, []);
    ForwardFrom(lines, linenum, pos - 1, [c], at);
    ExpressionsAreInverse(lines, at, Place(linenum, pos));
  }

  /** All three kinds of bracket are matched. */
  lemma AllKindsMatch()
    ensures ForwardMatch(["()"], 0, 0) == ForwardMatch(["[]"], 0, 0) == ForwardMatch(["{}"], 0, 0) == Some(Place(0, 1))
  {
    PairMatches('(', ')');
    PairMatches('[', ']');
    PairMatches('{', '}');
  }

  lemma PairMatches(open: char, close: char)
    requires Pairs(open, close)
    ensures ForwardMatch([[open, close]], 0, 0) == Some(Place(0, 1))
  {
    var line := [open, close];
    ForwardFileIsPlain([line], 0, 0, []);
    assert [] + [open] == [open];
    assert Forward(line, 1, [open]) == Found(1);
  }

  // ----- Where the scans start, and what they do at angle brackets -----

  /** Nothing is sought from any other character, nor from the first of "<<" or "<=". */
  lemma NothingToMatch(lines: seq<string>, l: nat, p: nat)
    requires l < |lines| && p < |lines[l]|
    ensures lines[l][p] !in "([{<" ==> ForwardMatch(lines, l, p) == None
    ensures lines[l][p] == '<' && p + 1 < |lines[l]| && lines[l][p + 1] in "<=" ==> ForwardMatch(lines, l, p) == None
    ensures lines[l][p] in "([{" ==> ForwardMatch(lines, l, p) == ForwardFile(lines, l, p, [])
    ensures lines[l][p] == '<' && (p + 1 < |lines[l]| ==> lines[l][p + 1] !in "<=") ==>
              ForwardMatch(lines, l, p) == ForwardFile(lines, l, p, [])
    ensures lines[l][p] !in ")]}>" ==> BackwardMatch(lines, l, p) == None
    ensures lines[l][p] in ")]}>" ==> BackwardMatch(lines, l, p) == BackwardFile(lines, l, p, [])
  {
  }

  /** An opening bracket waits for its partner, characters of no meaning are passed over, and the line ends with what
      still waits. */
  lemma OpenersWait(line: string, i: nat, stack: string)
    ensures i >= |line| ==> ForwardRun(line, i, stack) == (-1, Some(stack))
    ensures i < |line| && line[i] in "([{" ==> ForwardRun(line, i, stack) == ForwardRun(line, i + 1, stack + [line[i]])
    ensures i < |line| && line[i] !in "([{)]}<>;" ==> ForwardRun(line, i, stack) == ForwardRun(line, i + 1, stack)
  {
  }

  /** A closing bracket takes its partner away, or ends the scan when it was the last; any other closing bracket fails
      the scan. */
  lemma ClosersMeet(line: string, i: nat, stack: string, top: char)
    requires i < |line| && line[i] in ")]}" && top != '<'
    ensures if (top == '(' && line[i] == ')') || (top == '[' && line[i] == ']') || (top == '{' && line[i] == '}') then
              && ForwardRun(line, i, [top]) == (i + 1, None)
              && (stack != [] ==> ForwardRun(line, i, stack + [top]) == ForwardRun(line, i + 1, stack))
            else ForwardRun(line, i, stack + [top]) == (-1, None)
  {
    assert (stack + [top])[..|stack|] == stack;
  }

  /** A scan finds its match on this line, or goes on with the next one while something waits. */
  lemma LineByLine(lines: seq<string>, l: nat, i: nat, stack: string)
    requires l < |lines|
    ensures var (end, rest) := ForwardRun(lines[l], i, stack);
            ForwardFile(lines, l, i, stack) ==
            if end > -1 then Some(Place(l, end - 1))
            else if rest.Some? && rest.value != [] && l + 1 < |lines| then ForwardFile(lines, l + 1, 0, rest.value)
            else None
  {
  }

  /** The same backward. */
  lemma ClosersWaitBackward(line: string, i: int, stack: string)
    requires i < |line|
    ensures i < 0 ==> BackwardRun(line, i, stack) == (-1, Some(stack))
    ensures i >= 0 && line[i] in ")]}" ==> BackwardRun(line, i, stack) == BackwardRun(line, i - 1, stack + [line[i]])
    ensures i >= 0 && line[i] !in "([{)]}<>;" ==> BackwardRun(line, i, stack) == BackwardRun(line, i - 1, stack)
  {
  }

  lemma OpenersMeetBackward(line: string, i: nat, stack: string, top: char)
    requires i < |line| && line[i] in "([{" && top != '>'
    ensures if (top == ')' && line[i] == '(') || (top == ']' && line[i] == '[') || (top == '}' && line[i] == '{') then
              && BackwardRun(line, i, [top]) == (i as int, None)
              && (stack != [] ==> BackwardRun(line, i, stack + [top]) == BackwardRun(line, i - 1, stack))
            else BackwardRun(line, i, stack + [top]) == (-1, None)
  {
    assert (stack + [top])[..|stack|] == stack;
  }

  lemma LineByLineBackward(lines: seq<string>, l: nat, i: int, stack: string)
    requires l < |lines| && i < |lines[l]|
    ensures var (start, rest) := BackwardRun(lines[l], i, stack);
            BackwardFile(lines, l, i, stack) ==
            if start > -1 then Some(Place(l, start))
            else if rest.Some? && rest.value != [] && l > 0 then
              BackwardFile(lines, l - 1, |lines[l - 1]| - 1, rest.value)
            else None
  {
  }

  predicate EndsOutsideWord(s: string) {
    s == [] || !IsWord(s[|s| - 1])
  }

  /** The name is the whole word "operator", with nothing but whitespace after it. */
  lemma OperatorExactly(line: string, i: nat)
    requires i <= |line|
    ensures EndsInOperator(line, i) <==>
            exists head, blank :: line[..i] == head + "operator" + blank && AllSpace(blank) && EndsOutsideWord(head)
  {
    if EndsInOperator(line, i) {
      var _, _ := OperatorParts(line, i);
    }
    forall head, blank | line[..i] == head + "operator" + blank && AllSpace(blank) && EndsOutsideWord(head)
      ensures EndsInOperator(line, i)
    {
      OperatorIsFound(line, i, head, blank);
    }
  }

  lemma OperatorParts(line: string, i: nat) returns (head: string, blank: string)
    requires i <= |line| && EndsInOperator(line, i)
    ensures line[..i] == head + "operator" + blank && AllSpace(blank) && EndsOutsideWord(head)
  {
    var k := TextEnd(line, i);
    head, blank := line[..k - 8], line[k..i];
    assert line[k - 8..k] == "operator";
    assert line[..i] == head + line[k - 8..k] + blank;
  }

  /** Letters, digits and underscores before it make it part of another word. */
  lemma OtherWords(c: char)
    ensures EndsInOperator([c] + "operator", 9) <==>
            !('a' <= c <= 'z' || 'A' <= c <= 'Z' || '0' <= c <= '9' || c == '_')
  {
    var line := [c] + "operator";
    assert line[8] == 'r' && line[0] == c;
    assert forall j :: 0 <= j < 8 ==> line[1 + j] == OPERATOR[j];
    assert TextEnd(line, 9) == 9;
  }

  lemma OperatorIsFound(line: string, i: nat, head: string, blank: string)
    requires i <= |line| && line[..i] == head + "operator" + blank && AllSpace(blank)
    requires EndsOutsideWord(head)
    ensures EndsInOperator(line, i)
  {
    var n := |head| + 8;
    var k := TextEnd(line, i);
    assert forall j :: n <= j < i ==> line[j] == blank[j - n];
    assert forall j :: 0 <= j < 8 ==> line[|head| + j] == OPERATOR[j];
    assert line[n - 1] == OPERATOR[7];
    assert k == n;
    assert head != [] ==> line[|head| - 1] == head[|head| - 1];
  }

  /** A '>' after a minus sign, or one character after the name "operator", is passed over whatever the stack, and
      so is a '<' right after the name. */
  lemma ArrowsAndOperators(line: string, i: nat, stack: string)
    requires i < |line|
    requires (line[i] == '>' && i > 0 && (line[i - 1] == '-' || EndsInOperator(line, i - 1)))
             || (line[i] == '<' && i > 0 && line[i - 1] != '<' && EndsInOperator(line, i))
    ensures ForwardRun(line, i, stack) == ForwardRun(line, i + 1, stack)
  {
  }

  /** Any other '<' that does not follow a '<' waits for its '>', and any other '>' takes it away, or is passed over
      when none waits. */
  lemma AnglePairs(line: string, i: nat, stack: string)
    requires i < |line|
    ensures line[i] == '<' && (i > 0 ==> line[i - 1] != '<' && !EndsInOperator(line, i)) ==>
              ForwardRun(line, i, stack) == ForwardRun(line, i + 1, stack + ['<'])
    ensures line[i] == '>' && (i > 0 ==> line[i - 1] != '-' && !EndsInOperator(line, i - 1)) ==>
              && ForwardRun(line, i, ['<']) == (i + 1, None)
              && (stack != [] ==> ForwardRun(line, i, stack + ['<']) == ForwardRun(line, i + 1, stack))
              && ((stack == [] || stack[|stack| - 1] != '<') ==>
                    ForwardRun(line, i, stack) == ForwardRun(line, i + 1, stack))
  {
    assert (stack + ['<'])[..|stack|] == stack;
  }

  /** A left shift is passed over by a scan that is inside of something, and ends one that is not. */
  lemma ShiftIsNoPair(line: string, i: nat, stack: string)
    requires i + 1 < |line| && line[i] == '<' && line[i + 1] == '<'
    requires i > 0 ==> line[i - 1] != '<' && !EndsInOperator(line, i)
    ensures ForwardRun(line, i, stack) == if stack == [] then (-1, None) else ForwardRun(line, i + 2, stack)
  {
    AnglePairs(line, i, stack);
    assert (stack + ['<'])[..|stack|] == stack;
  }

  /** The '<' that still wait are given up at a semicolon, which ends a scan that is inside of nothing else. */
  lemma WaitingAnglesEndAtSemicolon(line: string, i: nat, stack: string, n: nat)
    requires i < |line| && line[i] == ';' && !TopIs(stack, '<')
    ensures ForwardRun(line, i, stack + seq(n, _ => '<')) ==
            if stack == [] then (-1, None) else ForwardRun(line, i + 1, stack)
  {
    DropsWaiting(stack, n, '<');
  }

  /** So are they at a closing bracket, which then meets what is below them. */
  lemma WaitingAnglesEndAtCloser(line: string, i: nat, stack: string, n: nat)
    requires i < |line| && (line[i] == ')' || line[i] == ']' || line[i] == '}') && !TopIs(stack, '<')
    ensures ForwardRun(line, i, stack + seq(n, _ => '<')) ==
            if stack == [] then (-1, None) else ForwardRun(line, i, stack)
  {
    DropsWaiting(stack, n, '<');
    assert DropAngles(stack, '<') == stack;
    assert CloserMove(line[i], stack + seq(n, _ => '<')) == CloserMove(line[i], stack);
  }

  lemma {:induction false} DropsWaiting(stack: string, n: nat, angle: char)
    requires !TopIs(stack, angle)
    ensures DropAngles(stack + seq(n, _ => angle), angle) == stack
  {
    if n == 0 {
      assert stack + seq(0, _ => angle) == stack;
    } else {
      DropsWaiting(stack, n - 1, angle);
      assert (stack + seq(n, _ => angle))[..|stack| + n - 1] == stack + seq(n - 1, _ => angle);
    }
  }

  /** Backward, the '>' of "->", of " >= " and of an operator's name is passed over with the character before it,
      and so are the two '<' of a left shift. */
  lemma ArrowsAndOperatorsBackward(line: string, i: nat, stack: string)
    requires 0 < i < |line|
    requires (line[i] == '>'
              && (line[i - 1] == '-' || EndsInOperator(line, i)
                  || (i + 2 < |line| && IsSpace(line[i - 1]) && line[i + 1] == '=' && IsSpace(line[i + 2]))))
             || (line[i] == '<' && line[i - 1] == '<')
    ensures BackwardRun(line, i, stack) == BackwardRun(line, i - 2, stack)
  {
  }

  lemma AnglePairsBackward(line: string, i: nat, stack: string)
    requires i < |line|
    ensures line[i] == '>' && (i > 0 ==>
              && line[i - 1] != '-' && !EndsInOperator(line, i)
              && !(i + 2 < |line| && IsSpace(line[i - 1]) && line[i + 1] == '=' && IsSpace(line[i + 2]))) ==>
              BackwardRun(line, i, stack) == BackwardRun(line, i - 1, stack + ['>'])
    ensures line[i] == '<' && (i > 0 ==> line[i - 1] != '<') ==>
              && BackwardRun(line, i, ['>']) == (i as int, None)
              && (stack != [] ==> BackwardRun(line, i, stack + ['>']) == BackwardRun(line, i - 1, stack))
              && ((stack == [] || stack[|stack| - 1] != '>') ==>
                    BackwardRun(line, i, stack) == BackwardRun(line, i - 1, stack))
  {
    assert (stack + ['>'])[..|stack|] == stack;
  }

  lemma WaitingAnglesEndAtSemicolonBackward(line: string, i: nat, stack: string, n: nat)
    requires i < |line| && line[i] == ';' && !TopIs(stack, '>')
    ensures BackwardRun(line, i, stack + seq(n, _ => '>')) ==
            if stack == [] then (-1, None) else BackwardRun(line, i - 1, stack)
  {
    DropsWaiting(stack, n, '>');
  }

  lemma WaitingAnglesEndAtOpener(line: string, i: nat, stack: string, n: nat)
    requires i < |line| && (line[i] == '(' || line[i] == '[' || line[i] == '{') && !TopIs(stack, '>')
    ensures BackwardRun(line, i, stack + seq(n, _ => '>')) ==
            if stack == [] then (-1, None) else BackwardRun(line, i, stack)
  {
    DropsWaiting(stack, n, '>');
    assert DropAngles(stack, '>') == stack;
    assert OpenerMove(line[i], stack + seq(n, _ => '>')) == OpenerMove(line[i], stack);
  }
}
