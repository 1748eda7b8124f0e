// cpplint's in-place removal of multi-line comments.

module MultiLineComments {
  import opened Options
  import opened Trimming

  const DUMMY := "/**/"

  // ----- Lines -----

  // Whether the end mark of a comment occurs at `from` or later.
  predicate HasCommentEnd(s: string, from: nat) {
    exists j :: from <= j < |s| - 1 && s[j] == '*' && s[j + 1] == '/'
  }

  /** The line starts a comment that goes beyond it. */
  predicate Opens(line: string) {
    var s := Trim(line);
    |s| >= 2 && s[0] == '/' && s[1] == '*' && !HasCommentEnd(s, 2)
  }

  predicate Closes(line: string) {
    var s := Trim(line);
    |s| >= 2 && s[|s| - 2] == '*' && s[|s| - 1] == '/'
  }

  predicate NoEndMark(s: string) {
    forall j :: 0 <= j < |s| - 1 ==> !(s[j] == '*' && s[j + 1] == '/')
  }

  /** A line opens a comment exactly when it is the start mark, with only whitespace before it and no end mark
      after it. */
  lemma OpensExactly(line: string)
    ensures Opens(line) <==> exists blank, rest :: line == blank + ("/*" + rest) && AllSpace(blank) && NoEndMark(rest)
  {
    if Opens(line) {
      var s := Trim(line);
      var before, after := TrimLaw(line);
      assert s == "/*" + s[2..];
      assert s + after == "/*" + (s[2..] + after);
      assert line == before + (s + after);
      StaysWithoutMark(s[2..], after);
    }
    forall blank, rest | line == blank + ("/*" + rest) && AllSpace(blank) && NoEndMark(rest)
      ensures Opens(line)
    {
      IsOpened(line, blank, rest);
    }
  }

  lemma StaysWithoutMark(s: string, blank: string)
    requires NoEndMark(s) && AllSpace(blank)
    ensures NoEndMark(s + blank)
  {
    assert forall j :: |s| <= j < |s + blank| ==> (s + blank)[j] == blank[j - |s|];
  }

  lemma IsOpened(line: string, blank: string, rest: string)
    requires line == blank + ("/*" + rest) && AllSpace(blank) && NoEndMark(rest)
    ensures Opens(line)
  {
    var body := "/*" + rest;
    TrimRightKeeps(body, 1);
    var after := TrimRightLaw(body);
    var s := TrimRight(body);
    assert blank + (s + after) == blank + s + after;
    TrimOf(blank, s, after);
    assert forall j :: 2 <= j < |s| ==> s[j] == rest[j - 2];
  }

  /** A line closes a comment exactly when it ends in the end mark, up to whitespace. */
  lemma ClosesExactly(line: string)
    ensures Closes(line) <==> exists head, blank :: line == head + ("*/" + blank) && AllSpace(blank)
  {
    if Closes(line) {
      var s := Trim(line);
      var before, after := TrimLaw(line);
      assert s == s[..|s| - 2] + "*/";
      assert line == (before + s[..|s| - 2]) + ("*/" + after);
    }
    forall head, blank | line == head + ("*/" + blank) && AllSpace(blank)
      ensures Closes(line)
    {
      IsClosed(line, head, blank);
    }
  }

  lemma IsClosed(line: string, head: string, blank: string)
    requires line == head + ("*/" + blank) && AllSpace(blank)
    ensures Closes(line)
  {
    var body := head + "*/";
    assert line == body + blank;
    TrimRightOf(body, blank);
    TrimLeftKeeps(body, |head|);
  }

  /** The line that replaces a comment line closes but does not open. */
  lemma DummyDoesNotOpen()
    ensures DUMMY == "/**/" && !Opens(DUMMY) && Closes(DUMMY)
  {
    assert TrimRight(DUMMY) == DUMMY && TrimLeft(DUMMY) == DUMMY;
    assert DUMMY[2] == '*' && DUMMY[3] == '/';
  }

  // ----- The reference: where the comments are -----

  /** Line i begins inside a comment opened on an earlier line. */
  predicate Inside(lines: seq<string>, i: nat)
    requires i <= |lines|
  {
    i > 0 && (Inside(lines, i - 1) || Opens(lines[i - 1])) && !Closes(lines[i - 1])
  }

  /** Line i belongs to a multi-line comment. */
  predicate Covered(lines: seq<string>, i: nat)
    requires i < |lines|
  {
    Inside(lines, i) || Opens(lines[i])
  }

  /** Line i or a later one ends a comment. */
  predicate ClosedFrom(lines: seq<string>, i: nat)
    decreases |lines| - i
  {
    i < |lines| && (Closes(lines[i]) || ClosedFrom(lines, i + 1))
  }

  /** Every line of a comment that ends is replaced; every other line, and an unfinished comment, stays. */
  function Cleaned(lines: seq<string>): (r: seq<string>)
    ensures |r| == |lines|
    ensures forall i :: 0 <= i < |lines| ==>
              r[i] == if Covered(lines, i) && ClosedFrom(lines, i) then DUMMY else lines[i]
  {
    seq(|lines|, i requires 0 <= i < |lines| => if Covered(lines, i) && ClosedFrom(lines, i) then DUMMY else lines[i])
  }

  /** Lines that do not open a comment, from a place outside any, are outside any. */
  lemma {:induction false} StaysOutside(lines: seq<string>, from: nat, to: nat)
    requires from <= to <= |lines| && !Inside(lines, from)
    requires forall i :: from <= i < to ==> !Opens(lines[i])
    ensures !Inside(lines, to)
    ensures forall i :: from <= i < to ==> !Covered(lines, i)
  {
    if from < to {
      StaysOutside(lines, from, to - 1);
    }
  }

  /** A comment goes on until a line closes it. */
  lemma {:induction false} StaysInside(lines: seq<string>, from: nat, to: nat)
    requires from <= to < |lines| && Covered(lines, from)
    requires forall i :: from <= i < to ==> !Closes(lines[i])
    ensures forall i :: from <= i <= to ==> Covered(lines, i)
    ensures !Closes(lines[to]) ==> Inside(lines, to + 1)
  {
    if from < to {
      StaysInside(lines, from, to - 1);
    }
  }

  lemma {:induction false} ClosedBy(lines: seq<string>, i: nat, end: nat)
    requires i <= end < |lines| && Closes(lines[end])
    ensures ClosedFrom(lines, i)
    decreases end - i
  {
    if i < end {
      ClosedBy(lines, i + 1, end);
    }
  }

  lemma {:induction false} NotClosed(lines: seq<string>, i: nat, j: nat)
    requires i <= j <= |lines| && !ClosedFrom(lines, i)
    ensures !ClosedFrom(lines, j) && (j < |lines| ==> !Closes(lines[j]))
    decreases j - i
  {
    if i < j {
      NotClosed(lines, i + 1, j);
    }
  }

  lemma {:induction false} NeverClosed(lines: seq<string>, i: nat)
    requires i <= |lines| && forall j :: i <= j < |lines| ==> !Closes(lines[j])
    ensures !ClosedFrom(lines, i)
    decreases |lines| - i
  {
    if i < |lines| {
      NeverClosed(lines, i + 1);
    }
  }

  /** A comment from `begin` to `end`, with nothing between `from` and it. */
  lemma {:induction false} FinishedComment(lines: seq<string>, from: nat, begin: nat, end: nat)
    requires from <= begin <= end < |lines| && !Inside(lines, from)
    requires (forall i :: from <= i < begin ==> !Opens(lines[i])) && Opens(lines[begin])
    requires (forall i :: begin <= i < end ==> !Closes(lines[i])) && Closes(lines[end])
    ensures !Inside(lines, end + 1)
    ensures forall i :: from <= i < begin ==> Cleaned(lines)[i] == lines[i]
    ensures forall i :: begin <= i <= end ==> Cleaned(lines)[i] == DUMMY
  {
    StaysOutside(lines, from, begin);
    StaysInside(lines, begin, end);
    forall i | begin <= i <= end
      ensures ClosedFrom(lines, i)
    {
      ClosedBy(lines, i, end);
    }
  }

  /** A comment opens on this line and no line from there on closes it. */
  predicate Unfinished(lines: seq<string>, begin: nat) {
    begin < |lines| && Opens(lines[begin]) && !Inside(lines, begin) && !ClosedFrom(lines, begin)
  }

  /** A comment from `begin` without an end. */
  lemma UnfinishedComment(lines: seq<string>, from: nat, begin: nat)
    requires from <= begin < |lines| && !Inside(lines, from)
    requires (forall i :: from <= i < begin ==> !Opens(lines[i])) && Opens(lines[begin])
    requires forall i :: begin <= i < |lines| ==> !Closes(lines[i])
    ensures Unfinished(lines, begin) && Inside(lines, |lines|)
    ensures forall i :: from <= i < |lines| ==> Cleaned(lines)[i] == lines[i]
  {
    StaysOutside(lines, from, begin);
    StaysInside(lines, begin, |lines| - 1);
    NeverClosed(lines, begin);
    forall i | begin <= i < |lines|
      ensures !ClosedFrom(lines, i)
    {
      NotClosed(lines, begin, i);
    }
  }

  // ----- The program -----

  method FindNextMultiLineCommentStart(lines: array<string>, from: nat) returns (lineix: nat)
    requires from <= lines.Length
    ensures from <= lineix <= lines.Length
    ensures forall i :: from <= i < lineix ==> !Opens(lines[i])
    ensures lineix < lines.Length ==> Opens(lines[lineix])
  {
    lineix := from;
    while lineix < lines.Length
      invariant from <= lineix <= lines.Length
      invariant forall i :: from <= i < lineix ==> !Opens(lines[i])
    {
      if Opens(lines[lineix]) {
        return;
      }
      lineix := lineix + 1;
    }
  }

  method FindNextMultiLineCommentEnd(lines: array<string>, from: nat) returns (lineix: nat)
    requires from <= lines.Length
    ensures from <= lineix <= lines.Length
    ensures forall i :: from <= i < lineix ==> !Closes(lines[i])
    ensures lineix < lines.Length ==> Closes(lines[lineix])
  {
    lineix := from;
    while lineix < lines.Length
      invariant from <= lineix <= lines.Length
      invariant forall i :: from <= i < lineix ==> !Closes(lines[i])
    {
      if Closes(lines[lineix]) {
        return;
      }
      lineix := lineix + 1;
    }
  }

  method RemoveMultiLineCommentsFromRange(lines: array<string>, begin: nat, end: nat)
    requires begin <= end <= lines.Length
    modifies lines
    ensures forall i :: 0 <= i < lines.Length ==> lines[i] == if begin <= i < end then DUMMY else old(lines[i])
  {
    for i := begin to end
      invariant forall j :: 0 <= j < lines.Length ==> lines[j] == if begin <= j < i then DUMMY else old(lines[j])
    {
      lines[i] := DUMMY;
    }
  }

  /** Removes the comments in place. On a comment without an end, reports the number of its first line
      (counting from 1) and leaves that comment as it is. */
  method RemoveMultiLineComments(lines: array<string>) returns (error: Option<nat>)
    modifies lines
    ensures lines[..] == Cleaned(old(lines[..]))
    ensures error.Some? <==> Inside(old(lines[..]), lines.Length)
    ensures error.Some? ==> error.value > 0 && Unfinished(old(lines[..]), error.value - 1)
  {
    ghost var was := lines[..];
    var lineix := 0;
    while lineix < lines.Length
      invariant 0 <= lineix <= lines.Length && CleanTo(lines[..], was, lineix)
    {
      lineix, error := RemoveNext(lines, lineix, was);
      if error.Some? {
        return;
      }
    }
    return None;
  }

  /** The lines before `to` are clean, the others untouched, and `to` is outside any comment. */
  ghost predicate CleanTo(now: seq<string>, was: seq<string>, to: nat) {
    && |now| == |was| && to <= |was| && !Inside(was, to)
    && (forall i :: 0 <= i < to ==> now[i] == Cleaned(was)[i])
    && (forall i :: to <= i < |was| ==> now[i] == was[i])
  }

  /** Removes the next comment at or after `from`; answers the line after it, the number of lines when there
      is none. */
  method RemoveNext(lines: array<string>, from: nat, ghost was: seq<string>) returns (next: nat, error: Option<nat>)
    requires from < lines.Length && CleanTo(lines[..], was, from)
    modifies lines
    ensures error.None? ==> from < next && CleanTo(lines[..], was, next)
    ensures error.Some? ==> lines[..] == Cleaned(was) && Inside(was, |was|)
    ensures error.Some? ==> error.value > 0 && Unfinished(was, error.value - 1)
  {
    ghost var now := lines[..];
    next, error := lines.Length, None;
    var begin, end := FindNextMultiLineComment(lines, from);
    if begin >= lines.Length {
      NoneLeft(now, was, from);
      return;
    }
    if end >= lines.Length {
      OneLeft(now, was, from, begin);
      error := Some(begin + 1);
      return;
    }
    RemoveComment(lines, from, begin, end, was);
    next := end + 1;
  }

  method RemoveComment(lines: array<string>, ghost from: nat, begin: nat, end: nat, ghost was: seq<string>)
    requires CleanTo(lines[..], was, from) && end < lines.Length && IsNext(lines[..], from, begin, end)
    modifies lines
    ensures CleanTo(lines[..], was, end + 1)
  {
    ghost var now := lines[..];
    RemoveMultiLineCommentsFromRange(lines, begin, end + 1);
    OneRemoved(now, lines[..], was, from, begin, end);
  }

  /** The first and the last line of the next comment, the number of lines when there is none. */
  method FindNextMultiLineComment(lines: array<string>, from: nat) returns (begin: nat, end: nat)
    requires from <= lines.Length
    ensures IsNext(lines[..], from, begin, end)
  {
    begin := FindNextMultiLineCommentStart(lines, from);
    end := FindNextMultiLineCommentEnd(lines, begin);
  }

  predicate IsNext(now: seq<string>, from: nat, begin: nat, end: nat) {
    && from <= begin <= end <= |now|
    && (forall i :: from <= i < begin ==> !Opens(now[i])) && (begin < |now| ==> Opens(now[begin]))
    && (forall i :: begin <= i < end ==> !Closes(now[i])) && (end < |now| ==> Closes(now[end]))
  }

  lemma NoneLeft(now: seq<string>, was: seq<string>, from: nat)
    requires CleanTo(now, was, from) && IsNext(now, from, |was|, |was|)
    ensures CleanTo(now, was, |was|)
  {
    StaysOutside(was, from, |was|);
  }

  lemma OneLeft(now: seq<string>, was: seq<string>, from: nat, begin: nat)
    requires CleanTo(now, was, from) && begin < |was| && IsNext(now, from, begin, |was|)
    ensures now == Cleaned(was) && Inside(was, |was|) && Unfinished(was, begin)
  {
    UnfinishedComment(was, from, begin);
  }

  lemma OneRemoved(now: seq<string>, next: seq<string>, was: seq<string>, from: nat, begin: nat, end: nat)
    requires CleanTo(now, was, from) && end < |was| == |next| && IsNext(now, from, begin, end)
    requires forall i :: 0 <= i < |was| ==> next[i] == if begin <= i <= end then DUMMY else now[i]
    ensures CleanTo(next, was, end + 1)
  {
    FinishedComment(was, from, begin, end);
  }

  // ----- What cleaning achieves -----

  /** After cleaning, exactly the unfinished comment is left. */
  lemma {:induction false} CoveredAfter(lines: seq<string>, i: nat)
    requires i < |lines|
    ensures Covered(Cleaned(lines), i) <==> Covered(lines, i) && !ClosedFrom(lines, i)
  {
    DummyDoesNotOpen();
    if i > 0 {
      CoveredAfter(lines, i - 1);
    }
  }

  /** An unfinished comment is left as it was to the end of the file. */
  lemma {:induction false} StillUnfinished(lines: seq<string>, i: nat)
    requires i <= |lines| && !ClosedFrom(lines, i)
    ensures !ClosedFrom(Cleaned(lines), i)
    decreases |lines| - i
  {
    if i < |lines| {
      StillUnfinished(lines, i + 1);
    }
  }

  lemma CleanedAgain(lines: seq<string>, i: nat)
    requires i < |lines|
    ensures Cleaned(Cleaned(lines))[i] == Cleaned(lines)[i]
  {
    CoveredAfter(lines, i);
    if Covered(Cleaned(lines), i) {
      StillUnfinished(lines, i);
    }
  }

  /** Cleaning is idempotent, with the same complaint, or none, the second time. */
  lemma {:induction false} CleanedTwice(lines: seq<string>)
    ensures Cleaned(Cleaned(lines)) == Cleaned(lines)
    ensures Inside(Cleaned(lines), |lines|) <==> Inside(lines, |lines|)
  {
    forall i | 0 <= i < |lines|
      ensures Cleaned(Cleaned(lines))[i] == Cleaned(lines)[i]
    {
      CleanedAgain(lines, i);
    }
    InsideAfter(lines);
  }

  lemma InsideAfter(lines: seq<string>)
    ensures Inside(Cleaned(lines), |lines|) <==> Inside(lines, |lines|)
  {
    if |lines| > 0 {
      CoveredAfter(lines, |lines| - 1);
      DummyDoesNotOpen();
    }
  }

  /** When there was nothing to complain about, no line is left that opens a comment. */
  lemma {:induction false} NothingOpens(lines: seq<string>, i: nat)
    requires i < |lines| && !Inside(lines, |lines|)
    ensures !Opens(Cleaned(lines)[i])
  {
    CoveredAfter(lines, i);
    if Covered(lines, i) && !ClosedFrom(lines, i) {
      forall j | i <= j < |lines|
        ensures !Closes(lines[j])
      {
        NotClosed(lines, i, j);
      }
      StaysInside(lines, i, |lines| - 1);
    }
  }
}
