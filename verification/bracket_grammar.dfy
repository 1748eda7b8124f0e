// What it means for a bracket to close another: a grammar of nested text, independent of any stack, and
// the position of a match in the concatenation of the lines.

module BracketGrammar {
  import opened Options
  import opened Brackets
  import opened Slices

  /** Text in which every bracket is closed by its partner. */
  datatype Nested =
    | Empty
    | Other(c: char, rest: Nested)
    | Group(open: char, inside: Nested, close: char, rest: Nested)

  predicate WellFormed(t: Nested) {
    match t
    case Empty => true
    case Other(c, rest) => !IsOpener(c) && !IsCloser(c) && WellFormed(rest)
    case Group(open, inside, close, rest) => Pairs(open, close) && WellFormed(inside) && WellFormed(rest)
  }

  function Yield(t: Nested): string {
    match t
    case Empty => []
    case Other(c, rest) => [c] + Yield(rest)
    case Group(open, inside, close, rest) => [open] + Yield(inside) + [close] + Yield(rest)
  }

  /** text[p..e + 1] is an opening bracket, nested text, and the bracket that closes the first. */
  ghost predicate Encloses(text: string, p: nat, e: nat, t: Nested) {
    p < e < |text| && WellFormed(t) && text[p + 1..e] == Yield(t) && Pairs(text[p], text[e])
  }

  ghost predicate EnclosesSome(text: string, p: nat, e: nat) {
    exists t :: Encloses(text, p, e, t)
  }

  // ----- Scanning text piece by piece -----

  function Shifted(scan: Scan, n: nat): Scan {
    if scan.Found? then Found(scan.at + n) else scan
  }

  lemma {:induction false} ForwardShift(a: string, b: string, j: nat, stack: string)
    ensures Forward(a + b, |a| + j, stack) == Shifted(Forward(b, j, stack), |a|)
    decreases |b| - j
  {
    if j < |b| {
      assert (a + b)[|a| + j] == b[j];
      if IsOpener(b[j]) {
        ForwardShift(a, b, j + 1, stack + [b[j]]);
      } else if IsCloser(b[j]) {
        if |stack| > 1 {
          ForwardShift(a, b, j + 1, stack[..|stack| - 1]);
        }
      } else {
        ForwardShift(a, b, j + 1, stack);
      }
    }
  }

  lemma {:induction false} ForwardConcat(a: string, b: string, i: nat, stack: string)
    requires i <= |a|
    ensures Forward(a + b, i, stack) ==
            match Forward(a, i, stack)
            case Continue(rest) => Shifted(Forward(b, 0, rest), |a|)
            case done => done
    decreases |a| - i
  {
    if i == |a| {
      ForwardShift(a, b, 0, stack);
    } else {
      assert (a + b)[i] == a[i];
      if IsOpener(a[i]) {
        ForwardConcat(a, b, i + 1, stack + [a[i]]);
      } else if IsCloser(a[i]) {
        if |stack| > 1 {
          ForwardConcat(a, b, i + 1, stack[..|stack| - 1]);
        }
      } else {
        ForwardConcat(a, b, i + 1, stack);
      }
    }
  }

  /** A scan of text that does not end in it goes on after it. */
  lemma ForwardOn(a: string, b: string, from: string, mid: string, to: string)
    requires Forward(a, 0, from) == Continue(mid) && Forward(b, 0, mid) == Continue(to)
    ensures Forward(a + b, 0, from) == Continue(to)
  {
    ForwardConcat(a, b, 0, from);
  }

  /** What one character is to the matcher. */
  lemma ForwardChar(c: char, stack: string)
    ensures IsOpener(c) ==> Forward([c], 0, stack) == Continue(stack + [c])
    ensures IsCloser(c) && |stack| > 1 && Pairs(stack[|stack| - 1], c) ==>
              Forward([c], 0, stack) == Continue(stack[..|stack| - 1])
    ensures !IsOpener(c) && !IsCloser(c) ==> Forward([c], 0, stack) == Continue(stack)
  {
  }

  // ----- Right and complete -----

  /** A bracket, neutral text and its partner are neutral. */
  lemma GroupIsNeutral(open: char, inside: string, close: char, stack: string)
    requires Pairs(open, close) && stack != []
    requires Forward(inside, 0, stack + [open]) == Continue(stack + [open])
    ensures Forward([open] + inside + [close], 0, stack) == Continue(stack)
  {
    var within := stack + [open];
    ForwardChar(open, stack);
    ForwardOn([open], inside, stack, within, within);
    ForwardChar(close, within);
    assert within[..|within| - 1] == stack;
    ForwardOn([open] + inside, [close], stack, within, stack);
  }

  /** Nested text leaves a scan where it was. */
  lemma {:induction false} NestedIsNeutral(t: Nested, stack: string)
    requires WellFormed(t) && stack != []
    ensures Forward(Yield(t), 0, stack) == Continue(stack)
    decreases t
  {
    match t
    case Empty =>
    case Other(c, rest) =>
      ForwardChar(c, stack);
      NestedIsNeutral(rest, stack);
      ForwardOn([c], Yield(rest), stack, stack, stack);
    case Group(open, inside, close, rest) =>
      NestedIsNeutral(inside, stack + [open]);
      GroupIsNeutral(open, Yield(inside), close, stack);
      NestedIsNeutral(rest, stack);
      ForwardOn([open] + Yield(inside) + [close], Yield(rest), stack, stack, stack);
  }

  /** Wherever it stands. */
  lemma SkipNested(before: string, t: Nested, after: string, stack: string)
    requires WellFormed(t) && stack != []
    ensures var text := before + (Yield(t) + after);
            Forward(text, |before|, stack) == Forward(text, |before| + |Yield(t)|, stack)
  {
    var y := Yield(t);
    NestedIsNeutral(t, stack);
    ForwardConcat(y, after, 0, stack);
    ForwardShift(before, y + after, 0, stack);
    ForwardShift(before + y, after, 0, stack);
    assert before + (y + after) == (before + y) + after;
  }

  lemma OneThenRest(text: string, i: nat, k: nat)
    requires i < k <= |text|
    ensures text[i..k] == [text[i]] + text[i + 1..k]
  {
  }

  lemma GroupThenRest(text: string, i: nat, k1: nat, k2: nat)
    requires i < k1 < k2 <= |text|
    ensures text[i..k2] == [text[i]] + text[i + 1..k1] + [text[k1]] + text[k1 + 1..k2]
  {
    assert text[i..k2] == text[i..k1] + text[k1..k2];
    OneThenRest(text, i, k1);
    OneThenRest(text, k1, k2);
  }

  /** A successful scan reads nested text up to the bracket that closes the top of its stack. */
  lemma {:induction false} ReadNested(text: string, i: nat, stack: string) returns (t: Nested, k: nat)
    requires stack != [] && i <= |text| && Forward(text, i, stack).Found?
    ensures WellFormed(t) && i <= k < |text| && text[i..k] == Yield(t) && Pairs(stack[|stack| - 1], text[k])
    ensures Forward(text, i, stack) == if |stack| == 1 then Found(k) else Forward(text, k + 1, stack[..|stack| - 1])
    decreases |text| - i
  {
    var c := text[i];
    if IsOpener(c) {
      var inside, k1 := ReadNested(text, i + 1, stack + [c]);
      assert (stack + [c])[..|stack|] == stack;
      var rest, k2 := ReadNested(text, k1 + 1, stack);
      t, k := Group(c, inside, text[k1], rest), k2;
      GroupThenRest(text, i, k1, k2);
    } else if IsCloser(c) {
      t, k := Empty, i;
    } else {
      var rest;
      rest, k := ReadNested(text, i + 1, stack);
      t := Other(c, rest);
      OneThenRest(text, i, k);
    }
  }

  /** A bracket before nested text is closed by its partner after it. */
  lemma PartnerIsFound(text: string, p: nat, e: nat, t: Nested)
    requires p < |text| && IsOpener(text[p]) && Encloses(text, p, e, t)
    ensures Forward(text, p, []) == Found(e)
  {
    var open := [text[p]];
    SkipNested(text[..p + 1], t, text[e..], open);
    assert text == text[..p + 1] + (Yield(t) + text[e..]);
    assert [] + [text[p]] == open;
  }

  /** The matcher is right and complete: it finds e from an opening bracket at p if and only if the text
      between them is nested and e holds the bracket's partner. */
  lemma MatchIsNesting(text: string, p: nat, e: nat)
    requires p < |text| && IsOpener(text[p])
    ensures Forward(text, p, []) == Found(e) <==> EnclosesSome(text, p, e)
  {
    if Forward(text, p, []) == Found(e) {
      assert [] + [text[p]] == [text[p]];
      var t, k := ReadNested(text, p + 1, [text[p]]);
      assert Encloses(text, p, e, t);
    }
    if EnclosesSome(text, p, e) {
      var t :| Encloses(text, p, e, t);
      PartnerIsFound(text, p, e, t);
    }
  }

  // ----- Many lines -----

  /** The text of the lines from line l on. */
  function Text(lines: seq<string>, l: nat): string
    decreases |lines| - l
  {
    if l >= |lines| then [] else lines[l] + Text(lines, l + 1)
  }

  /** The number of characters on the lines from `l` up to `to`. */
  function Offset(lines: seq<string>, l: nat, to: nat): nat
    requires l <= to <= |lines|
    decreases |lines| - l
  {
    if l == to then 0 else |lines[l]| + Offset(lines, l + 1, to)
  }

  /** Line breaks do not matter: the match found line by line is the match in the concatenated text. */
  lemma {:induction false} LinesAreText(lines: seq<string>, l: nat, i: nat, stack: string)
    requires l < |lines| && i <= |lines[l]|
    ensures match ForwardLines(lines, l, i, stack)
            case Some(place) => l <= place.line < |lines| && place.pos < |lines[place.line]|
                                && Forward(Text(lines, l), i, stack) == Found(Offset(lines, l, place.line) + place.pos)
            case None => !Forward(Text(lines, l), i, stack).Found?
    decreases |lines| - l
  {
    ForwardConcat(lines[l], Text(lines, l + 1), i, stack);
    FoundIsInside(lines[l], i, stack);
    match Forward(lines[l], i, stack)
    case Continue(rest) =>
      if l + 1 < |lines| {
        LinesAreText(lines, l + 1, 0, rest);
      }
    case _ =>
  }

  lemma {:induction false} FoundIsInside(line: string, i: nat, stack: string)
    ensures var r := Forward(line, i, stack); r.Found? ==> i <= r.at < |line|
    decreases |line| - i
  {
    if i < |line| {
      if IsOpener(line[i]) {
        FoundIsInside(line, i + 1, stack + [line[i]]);
      } else if IsCloser(line[i]) {
        if |stack| > 1 {
          FoundIsInside(line, i + 1, stack[..|stack| - 1]);
        }
      } else {
        FoundIsInside(line, i + 1, stack);
      }
    }
  }

  // ----- What CloseExpression finds -----

  /** The place's position in the text of the lines from l on. */
  function Position(lines: seq<string>, l: nat, place: Place): nat
    requires l <= place.line <= |lines|
  {
    Offset(lines, l, place.line) + place.pos
  }

  /** Started on a bracket, CloseExpression finds the place that closes it in the text of the lines, and fails
      exactly when there is none, whatever angle brackets, semicolons and operators it meets. */
  lemma ExpressionIsNesting(lines: seq<string>, l: nat, p: nat, e: nat)
    requires l < |lines| && p < |lines[l]| && IsOpener(lines[l][p])
    ensures var found := ForwardMatch(lines, l, p);
            && (found.Some? ==> l <= found.value.line < |lines|)
            && (EnclosesSome(Text(lines, l), p, e) <==> found.Some? && e == Position(lines, l, found.value))
  {
    ForwardFileIsPlain(lines, l, p, []);
    LinesAreText(lines, l, p, []);
    assert Text(lines, l)[p] == lines[l][p];
    MatchIsNesting(Text(lines, l), p, e);
  }

  // ----- Text that a scan passes over is nested -----

  /** Text that brings a scan inside a parenthesis back to that parenthesis is nested. */
  lemma NeutralIsNested(s: string) returns (t: Nested)
    requires Forward(s, 0, "(") == Continue("(")
    ensures WellFormed(t) && Yield(t) == s
  {
    ForwardConcat(s, ")", 0, "(");
    assert Forward(")", 0, "(") == Found(0);
    var k;
    t, k := ReadNested(s + ")", 0, "(");
    assert (s + ")")[0..|s|] == s;
  }

  /** The backward scan of a whole text. */
  function BackwardText(s: string, stack: string): Scan {
    Backward(s, |s| - 1, stack)
  }

  lemma {:induction false} BackwardPrefix(a: string, b: string, j: int, stack: string)
    requires j < |a|
    ensures Backward(a + b, j, stack) == Backward(a, j, stack)
    decreases j
  {
    if j >= 0 {
      assert (a + b)[j] == a[j];
      if IsCloser(a[j]) {
        BackwardPrefix(a, b, j - 1, stack + [a[j]]);
      } else if IsOpener(a[j]) {
        if |stack| > 1 {
          BackwardPrefix(a, b, j - 1, stack[..|stack| - 1]);
        }
      } else {
        BackwardPrefix(a, b, j - 1, stack);
      }
    }
  }

  lemma {:induction false} BackwardSuffix(a: string, b: string, j: int, stack: string, mid: string)
    requires -1 <= j < |b| && Backward(b, j, stack) == Continue(mid)
    ensures Backward(a + b, |a| + j, stack) == Backward(a + b, |a| - 1, mid)
    decreases j
  {
    if j >= 0 {
      assert (a + b)[|a| + j] == b[j];
      if IsCloser(b[j]) {
        BackwardSuffix(a, b, j - 1, stack + [b[j]], mid);
      } else if IsOpener(b[j]) {
        BackwardSuffix(a, b, j - 1, stack[..|stack| - 1], mid);
      } else {
        BackwardSuffix(a, b, j - 1, stack, mid);
      }
    }
  }

  /** A backward scan from i that goes back to j is one of the text between. */
  lemma BackwardSlice(line: string, j: nat, i: int, stack: string)
    requires 0 < j <= i + 1 <= |line|
    ensures BackwardText(Slice(line, j, i + 1), stack) == Backward(line[j..], i - j, stack)
  {
    assert line[j..] == Slice(line, j, i + 1) + line[i + 1..];
    BackwardPrefix(Slice(line, j, i + 1), line[i + 1..], i - j, stack);
  }

  lemma BackwardOn(a: string, b: string, from: string, mid: string)
    requires BackwardText(b, from) == Continue(mid)
    ensures BackwardText(a + b, from) == BackwardText(a, mid)
  {
    BackwardSuffix(a, b, |b| - 1, from, mid);
    BackwardPrefix(a, b, |a| - 1, mid);
  }

  /** The same for a backward scan. */
  lemma NeutralBackwardIsNested(s: string) returns (t: Nested)
    requires BackwardText(s, ")") == Continue(")")
    ensures WellFormed(t) && Yield(t) == s
  {
    var text := "(" + (s + ")");
    var open, close := Place(0, 0), Place(0, |s| + 1);
    InsideParentheses(s);
    assert BackwardLines([text], 0, |s| + 1, []) == Some(open);
    ScansAreInverse([text], open, close);
    assert Forward(text, 0, []) == Found(|s| + 1);
    MatchIsNesting(text, 0, |s| + 1);
    t :| Encloses(text, 0, |s| + 1, t);
    assert text[1..|s| + 1] == s;
  }

  lemma InsideParentheses(s: string)
    requires BackwardText(s, ")") == Continue(")")
    ensures BackwardText("(" + (s + ")"), []) == Found(0)
  {
    assert [] + [')'] == ")";
    assert BackwardText(")", []) == Continue(")");
    BackwardOn(s, ")", [], ")");
    BackwardOn("(", s + ")", [], ")");
    assert BackwardText("(", ")") == Found(0);
  }

  /** A scan that goes from i to j is one of the text between. */
  lemma ForwardSlice(line: string, i: nat, j: nat, stack: string)
    requires i <= j <= |line|
    ensures Forward(line[..j], i, stack) == Shifted(Forward(Slice(line, i, j), 0, stack), i)
  {
    assert line[..j] == line[..i] + Slice(line, i, j);
    ForwardShift(line[..i], Slice(line, i, j), 0, stack);
  }

  // ----- The text between two places -----

  predicate Precedes(lines: seq<string>, l: nat, i: nat, end: Place) {
    && l <= end.line < |lines| && i <= |lines[l]| && end.pos <= |lines[end.line]|
    && (l == end.line ==> i <= end.pos)
  }

  function Between(lines: seq<string>, l: nat, i: nat, end: Place): string
    requires Precedes(lines, l, i, end)
    decreases end.line - l
  {
    if l == end.line then Slice(lines[l], i, end.pos)
    else Slice(lines[l], i, |lines[l]|) + Between(lines, l + 1, 0, end)
  }

  lemma Associates(a: string, b: string, c: string)
    ensures a + (b + c) == (a + b) + c
  {
  }

  /** The same, cut at the beginning of the last line. */
  lemma {:induction false} BetweenLast(lines: seq<string>, l: nat, i: nat, end: Place)
    requires Precedes(lines, l, i, end) && l < end.line
    ensures Between(lines, l, i, end) ==
            Between(lines, l, i, Place(end.line - 1, |lines[end.line - 1]|)) + lines[end.line][..end.pos]
    decreases end.line - l
  {
    var before := Place(end.line - 1, |lines[end.line - 1]|);
    if l + 1 < end.line {
      BetweenLast(lines, l + 1, 0, end);
      Associates(Slice(lines[l], i, |lines[l]|), Between(lines, l + 1, 0, before), lines[end.line][..end.pos]);
      assert Between(lines, l, i, before) == Slice(lines[l], i, |lines[l]|) + Between(lines, l + 1, 0, before);
    } else {
      assert Between(lines, l, i, before) == Slice(lines[l], i, |lines[l]|);
    }
  }
}
