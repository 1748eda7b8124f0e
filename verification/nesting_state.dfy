// cpplint's NestingState across #if, #else and #endif: what the snapshots of the nesting stack achieve.

module NestingState {
  import opened Histories
  import opened Trimming
  import opened Brackets

  // ----- Lines -----

  datatype Directive = If | Else | Endif | Ordinary

  function LeadingWord(s: string): string {
    if s != [] && IsWord(s[0]) then [s[0]] + LeadingWord(s[1..]) else []
  }

  /** The word after the '#' of a directive line, with any whitespace before and between them. */
  function DirectiveWord(line: string): string {
    var s := TrimLeft(line);
    if s == [] || s[0] != '#' then [] else LeadingWord(TrimLeft(s[1..]))
  }

  /** The regular expressions ^\s*#\s*(if|ifdef|ifndef)\b, ^\s*#\s*(else|elif)\b and ^\s*#\s*endif\b. */
  function Classify(line: string): Directive {
    var word := DirectiveWord(line);
    if word == "if" || word == "ifdef" || word == "ifndef" then If
    else if word == "else" || word == "elif" then Else
    else if word == "endif" then Endif
    else Ordinary
  }

  /** The line is a '#' and this word, with any whitespace before and between them, and no letter, digit or underscore
      right after. */
  ghost predicate HasDirective(line: string, word: string) {
    exists before, between, rest ::
      && line == before + ("#" + (between + (word + rest)))
      && AllSpace(before) && AllSpace(between) && (rest == [] || !IsWord(rest[0]))
  }

  predicate AllWord(s: string) {
    forall i :: 0 <= i < |s| ==> IsWord(s[i])
  }

  lemma {:induction false} LeadingWordLaw(s: string) returns (rest: string)
    ensures s == LeadingWord(s) + rest && (rest == [] || !IsWord(rest[0]))
  {
    if s != [] && IsWord(s[0]) {
      rest := LeadingWordLaw(s[1..]);
      assert s == [s[0]] + s[1..];
    } else {
      rest := s;
    }
  }

  lemma {:induction false} LeadingWordOf(word: string, rest: string)
    requires AllWord(word) && (rest == [] || !IsWord(rest[0]))
    ensures LeadingWord(word + rest) == word
  {
    if word == [] {
      assert word + rest == rest;
    } else {
      assert (word + rest)[1..] == word[1..] + rest;
      LeadingWordOf(word[1..], rest);
    }
  }

  lemma DirectiveFound(line: string)
    ensures DirectiveWord(line) != [] ==> HasDirective(line, DirectiveWord(line))
  {
    var s := TrimLeft(line);
    if s != [] && s[0] == '#' {
      var before := TrimLeftLaw(line);
      var between := TrimLeftLaw(s[1..]);
      var rest := LeadingWordLaw(TrimLeft(s[1..]));
      assert s == "#" + s[1..];
      DirectiveParts(line, before, between, LeadingWord(TrimLeft(s[1..])), rest);
    }
  }

  lemma DirectiveParts(line: string, before: string, between: string, word: string, rest: string)
    requires line == before + ("#" + (between + (word + rest)))
    requires AllSpace(before) && AllSpace(between) && (rest == [] || !IsWord(rest[0]))
    ensures HasDirective(line, word)
  {
  }

  lemma DirectiveIs(line: string, word: string)
    requires HasDirective(line, word) && AllWord(word) && word != []
    ensures DirectiveWord(line) == word
  {
    var before, between, rest :|
      && line == before + ("#" + (between + (word + rest)))
      && AllSpace(before) && AllSpace(between) && (rest == [] || !IsWord(rest[0]));
    TrimLeftOf(before, "#" + (between + (word + rest)));
    HashThenWord(between, word, rest);
  }

  lemma HashThenWord(between: string, word: string, rest: string)
    requires AllSpace(between) && AllWord(word) && word != [] && (rest == [] || !IsWord(rest[0]))
    ensures var s := "#" + (between + (word + rest)); LeadingWord(TrimLeft(s[1..])) == word
  {
    var t := word + rest;
    assert ("#" + (between + t))[1..] == between + t;
    NoSpaceInWords(word[0]);
    TrimLeftOf(between, t);
    LeadingWordOf(word, rest);
  }

  lemma NoSpaceInWords(c: char)
    requires IsWord(c)
    ensures !IsSpace(c)
  {
  }

  lemma DirectiveExactly(line: string, word: string)
    requires AllWord(word) && word != []
    ensures HasDirective(line, word) <==> DirectiveWord(line) == word
  {
    DirectiveFound(line);
    if HasDirective(line, word) {
      DirectiveIs(line, word);
    }
  }

  /** The six directives, and what each does; any other line is an ordinary one. */
  lemma ClassifyExactly(line: string)
    ensures Classify(line).If? <==>
            HasDirective(line, "if") || HasDirective(line, "ifdef") || HasDirective(line, "ifndef")
    ensures Classify(line).Else? <==> HasDirective(line, "else") || HasDirective(line, "elif")
    ensures Classify(line).Endif? <==> HasDirective(line, "endif")
  {
    DirectiveExactly(line, "if");
    DirectiveExactly(line, "ifdef");
    DirectiveExactly(line, "ifndef");
    DirectiveExactly(line, "else");
    DirectiveExactly(line, "elif");
    DirectiveExactly(line, "endif");
  }

  // ----- The snapshot machine -----

  /** A checkpoint of the nesting stack. */
  datatype PreprocessorInfo<+B> = PreprocessorInfo(stackBeforeIf: seq<B>, stackBeforeElse: seq<B>, seenElse: bool)

  datatype State<+B> = State(stack: seq<B>, ppStack: seq<PreprocessorInfo<B>>)

  function Preprocess<B>(s: State<B>, d: Directive): State<B> {
    var n := |s.ppStack|;
    match d
    case Ordinary => s
    case If => s.(ppStack := s.ppStack + [PreprocessorInfo(s.stack, [], false)])
    case Else =>
      if n == 0 then s
      else
        var top := s.ppStack[n - 1];
        var marked := if top.seenElse then top else top.(seenElse := true, stackBeforeElse := s.stack);
        State(top.stackBeforeIf, s.ppStack[..n - 1] + [marked])
    case Endif =>
      if n == 0 then s
      else
        var top := s.ppStack[n - 1];
        State(if top.seenElse then top.stackBeforeElse else s.stack, s.ppStack[..n - 1])
  }

  /** What a line of the file, given by its number, does to the nesting stack apart from its being a
      directive. Directive lines are scanned for blocks like any other, and later lines may be read. */
  type Effect<!B> = (seq<string>, nat, seq<B>) -> seq<B>

  class Nesting<B> {
    var stack: seq<B>
    var ppStack: seq<PreprocessorInfo<B>>

    function Current(): State<B>
      reads this
    {
      State(stack, ppStack)
    }

    constructor ()
      ensures Current() == State([], [])
    {
      stack, ppStack := [], [];
    }

    method UpdatePreprocessor(line: string)
      modifies this
      ensures Current() == Preprocess(old(Current()), Classify(line))
    {
      var directive := Classify(line);
      if directive.If? {
        ppStack := ppStack + [PreprocessorInfo(stack, [], false)];
      } else if directive.Else? {
        if ppStack != [] {
          var top := |ppStack| - 1;
          if !ppStack[top].seenElse {
            ppStack := ppStack[top := ppStack[top].(seenElse := true)];
            ppStack := ppStack[top := ppStack[top].(stackBeforeElse := stack)];
          }
          stack := ppStack[top].stackBeforeIf;
        }
      } else if directive.Endif? {
        if ppStack != [] {
          var top := |ppStack| - 1;
          if ppStack[top].seenElse {
            stack := ppStack[top].stackBeforeElse;
          }
          ppStack := ppStack[..top];
        }
      }
    }

    method Update(lines: seq<string>, linenum: nat, effect: Effect<B>)
      requires linenum < |lines|
      modifies this
      ensures Current() == Advance(effect, old(Current()), lines, linenum)
    {
      UpdatePreprocessor(lines[linenum]);
      stack := effect(lines, linenum, stack);
    }

    method UpdateAll(lines: seq<string>, effect: Effect<B>)
      modifies this
      ensures Current() == Run(effect, old(Current()), lines, |lines|)
    {
      for k := 0 to |lines|
        invariant Current() == Run(effect, old(Current()), lines, k)
      {
        Update(lines, k, effect);
      }
    }
  }

  function Advance<B>(effect: Effect<B>, s: State<B>, lines: seq<string>, linenum: nat): State<B>
    requires linenum < |lines|
  {
    var next := Preprocess(s, Classify(lines[linenum]));
    next.(stack := effect(lines, linenum, next.stack))
  }

  function Run<B>(effect: Effect<B>, start: State<B>, lines: seq<string>, k: nat): State<B>
    requires k <= |lines|
  {
    if k == 0 then start else Advance(effect, Run(effect, start, lines, k - 1), lines, k - 1)
  }

  // ----- The reference: keep the first branch of every conditional -----

  /** What a directive does to the conditionals that are open, outermost first, each with whether its first
      branch is over. A stray #else or #endif is ignored. */
  function OpenStep(open: seq<bool>, d: Directive): seq<bool> {
    match d
    case Ordinary => open
    case If => open + [false]
    case Else => if open == [] then open else open[|open| - 1 := true]
    case Endif => if open == [] then open else open[..|open| - 1]
  }

  function Open(lines: seq<string>, k: nat): seq<bool>
    requires k <= |lines|
  {
    if k == 0 then [] else OpenStep(Open(lines, k - 1), Classify(lines[k - 1]))
  }

  /** The nesting stack from the lines that lie in the first branch of every conditional around them, and
      from no other line. An #if line belongs to its first branch, an #else line to the branch it begins,
      and an #endif line to what follows the conditional. */
  function FirstBranches<B>(effect: Effect<B>, stack: seq<B>, lines: seq<string>, k: nat): seq<B>
    requires k <= |lines|
  {
    if k == 0 then stack
    else
      var before := FirstBranches(effect, stack, lines, k - 1);
      if AllFirst(Open(lines, k)) then effect(lines, k - 1, before) else before
  }

  /** No #else or #endif without its #if among the first k lines. */
  predicate NoStray(lines: seq<string>, k: nat)
    requires k <= |lines|
  {
    k == 0 || (NoStray(lines, k - 1)
               && (Classify(lines[k - 1]).Else? || Classify(lines[k - 1]).Endif? ==> Open(lines, k - 1) != []))
  }

  /** The index of the first true, |open| when there is none. */
  function FirstTrue(open: seq<bool>): (j: nat)
    ensures j <= |open| && forall i :: 0 <= i < j ==> !open[i]
    ensures j < |open| ==> open[j]
  {
    if open == [] || open[0] then 0 else FirstTrue(open[1..]) + 1
  }

  predicate AllFirst(open: seq<bool>) {
    FirstTrue(open) == |open|
  }

  /** The first-branch stack is the current one, or the one saved at the #else of the outermost conditional
      whose first branch is over. */
  ghost predicate Holds<B>(s: State<B>, base: seq<PreprocessorInfo<B>>, open: seq<bool>, first: seq<B>) {
    var n := |base|;
    && |s.ppStack| == n + |open| && s.ppStack[..n] == base
    && (forall j :: 0 <= j < |open| ==> s.ppStack[n + j].seenElse == open[j])
    && var j := FirstTrue(open);
       first == if j == |open| then s.stack else s.ppStack[n + j].stackBeforeElse
  }

  lemma FirstTrueIs(open: seq<bool>, j: nat)
    requires j <= |open| && (forall i :: 0 <= i < j ==> !open[i]) && (j < |open| ==> open[j])
    ensures FirstTrue(open) == j
  {
  }

  lemma IfHolds<B>(s: State<B>, base: seq<PreprocessorInfo<B>>, open: seq<bool>, first: seq<B>)
    requires Holds(s, base, open, first)
    ensures Holds(Preprocess(s, If), base, open + [false], first)
  {
    var j := FirstTrue(open);
    FirstTrueIs(open + [false], if j == |open| then |open| + 1 else j);
  }

  lemma ElseHolds<B>(s: State<B>, base: seq<PreprocessorInfo<B>>, open: seq<bool>, first: seq<B>)
    requires Holds(s, base, open, first) && open != []
    ensures Holds(Preprocess(s, Else), base, open[|open| - 1 := true], first)
  {
    var j := FirstTrue(open);
    FirstTrueIs(open[|open| - 1 := true], if j == |open| then |open| - 1 else j);
    assert Preprocess(s, Else).ppStack[..|base|] == base;
    assert s.ppStack[|base| + (|open| - 1)].seenElse == open[|open| - 1];
  }

  lemma EndifHolds<B>(s: State<B>, base: seq<PreprocessorInfo<B>>, open: seq<bool>, first: seq<B>)
    requires Holds(s, base, open, first) && open != []
    ensures Holds(Preprocess(s, Endif), base, open[..|open| - 1], first)
  {
    var j := FirstTrue(open);
    FirstTrueIs(open[..|open| - 1], if j >= |open| - 1 then |open| - 1 else j);
    assert Preprocess(s, Endif).ppStack[..|base|] == base;
    assert s.ppStack[|base| + (|open| - 1)].seenElse == open[|open| - 1];
  }

  lemma {:induction false} DirectiveHolds<B>(s: State<B>, base: seq<PreprocessorInfo<B>>, open: seq<bool>,
                                             first: seq<B>, d: Directive)
    requires Holds(s, base, open, first)
    requires d.Ordinary? || d.If? || open != [] || base == []
    ensures Holds(Preprocess(s, d), base, OpenStep(open, d), first)
  {
    match d
    case Ordinary =>
    case If => IfHolds(s, base, open, first);
    case Else => if open != [] { ElseHolds(s, base, open, first); }
    case Endif => if open != [] { EndifHolds(s, base, open, first); }
  }

  /** What a line does to the stack counts exactly when no first branch is over. */
  lemma EffectHolds<B>(s: State<B>, base: seq<PreprocessorInfo<B>>, open: seq<bool>, first: seq<B>, next: seq<B>)
    requires Holds(s, base, open, first)
    ensures Holds(s.(stack := next), base, open, if AllFirst(open) then next else first)
  {
  }

  /** The invariant of any run: over the frames that were there at the start, nothing changes; the
      first-branch stack is always at hand. Stray directives are harmless when there were no frames. */
  lemma {:induction false} RunHolds<B>(effect: Effect<B>, start: State<B>, lines: seq<string>, k: nat)
    requires k <= |lines|
    requires start.ppStack == [] || NoStray(lines, k)
    ensures Holds(Run(effect, start, lines, k), start.ppStack, Open(lines, k),
                  FirstBranches(effect, start.stack, lines, k))
  {
    hide Classify;
    if k > 0 {
      RunHolds(effect, start, lines, k - 1);
      var s, d := Run(effect, start, lines, k - 1), Classify(lines[k - 1]);
      var first := FirstBranches(effect, start.stack, lines, k - 1);
      DirectiveHolds(s, start.ppStack, Open(lines, k - 1), first, d);
      var next := Preprocess(s, d);
      EffectHolds(next, start.ppStack, Open(lines, k), first, effect(lines, k - 1, next.stack));
    }
  }

  /** Meaning is preserved: once every conditional is closed, the nesting stack is the one from running only
      the first branch of every conditional, and the stack of checkpoints is back to what it was. */
  lemma {:induction false} ConditionalsAreTransparent<B>(effect: Effect<B>, start: State<B>, lines: seq<string>)
    requires Open(lines, |lines|) == []
    requires start.ppStack == [] || NoStray(lines, |lines|)
    ensures Run(effect, start, lines, |lines|) ==
            State(FirstBranches(effect, start.stack, lines, |lines|), start.ppStack)
  {
    RunHolds(effect, start, lines, |lines|);
    var s := Run(effect, start, lines, |lines|);
    assert s.ppStack[..|start.ppStack|] == s.ppStack;
  }

  /** What a directive does to the stack and to the checkpoints, of which `info` is the innermost. Without one,
      #else and #endif do nothing. */
  lemma DirectivesMean<B>(stack: seq<B>, outer: seq<PreprocessorInfo<B>>, info: PreprocessorInfo<B>)
    ensures var s := State(stack, outer + [info]);
            && Preprocess(s, Ordinary) == s
            && Preprocess(s, If) == State(stack, outer + [info] + [PreprocessorInfo(stack, [], false)])
            && Preprocess(s, Else) ==
               State(info.stackBeforeIf,
                     outer + [PreprocessorInfo(info.stackBeforeIf,
                                               if info.seenElse then info.stackBeforeElse else stack, true)])
            && Preprocess(s, Endif) == State(if info.seenElse then info.stackBeforeElse else stack, outer)
    ensures var s: State<B> := State(stack, []);
            && Preprocess(s, Ordinary) == Preprocess(s, Else) == Preprocess(s, Endif) == s
            && Preprocess(s, If) == State(stack, [PreprocessorInfo(stack, [], false)])
  {
    assert (outer + [info])[..|outer|] == outer;
    assert [] + [PreprocessorInfo(stack, [], false)] == [PreprocessorInfo(stack, [], false)];
  }

  // ----- Where the other branches start -----

  /** What a directive on line i does to the numbers of the open #if lines, the innermost last. */
  function OpenedNext(at: History<nat>, d: Directive, i: nat): History<nat> {
    match d
    case If => Then(at, i)
    case Endif => if at.Beginning? then at else at.before
    case _ => at
  }

  function Depth(at: History<nat>): nat {
    if at.Beginning? then 0 else Depth(at.before) + 1
  }

  function OpenedAt(lines: seq<string>, k: nat): (at: History<nat>)
    requires k <= |lines|
    ensures Depth(at) == |Open(lines, k)|
  {
    if k == 0 then Beginning else OpenedNext(OpenedAt(lines, k - 1), Classify(lines[k - 1]), k - 1)
  }

  /** The stack that the run had before line i. */
  function StackBefore<B>(effect: Effect<B>, start: State<B>, lines: seq<string>, i: nat): seq<B> {
    if i <= |lines| then Run(effect, start, lines, i).stack else []
  }

  /** The checkpoints above the first n hold, for the #else, the stacks before these lines. */
  predicate Saved<B(==)>(effect: Effect<B>, start: State<B>, lines: seq<string>, ppStack: seq<PreprocessorInfo<B>>,
                         n: nat, at: History<nat>)
    decreases at
  {
    match at
    case Beginning => |ppStack| == n
    case Then(outer, i) =>
      && |ppStack| > n && ppStack[|ppStack| - 1].stackBeforeIf == StackBefore(effect, start, lines, i)
      && Saved(effect, start, lines, ppStack[..|ppStack| - 1], n, outer)
  }

  lemma {:induction false} SavedStep<B>(effect: Effect<B>, start: State<B>, lines: seq<string>, s: State<B>, n: nat,
                                        at: History<nat>, d: Directive, i: nat)
    requires Saved(effect, start, lines, s.ppStack, n, at) && s.stack == StackBefore(effect, start, lines, i)
    requires d.Else? || d.Endif? ==> at.Then? || n == 0
    ensures Saved(effect, start, lines, Preprocess(s, d).ppStack, n, OpenedNext(at, d, i))
  {
    var m := |s.ppStack|;
    if d.If? {
      assert Preprocess(s, d).ppStack[..m] == s.ppStack;
      SavedAbove(effect, start, lines, s.ppStack, n, at);
    } else if d.Else? && m > 0 && at.Then? {
      assert Preprocess(s, d).ppStack[..m - 1] == s.ppStack[..m - 1];
    }
  }

  lemma {:induction false} SavedAbove<B>(effect: Effect<B>, start: State<B>, lines: seq<string>,
                                         ppStack: seq<PreprocessorInfo<B>>, n: nat, at: History<nat>)
    requires Saved(effect, start, lines, ppStack, n, at)
    ensures |ppStack| >= n
  {
  }

  lemma {:induction false} NotStray(lines: seq<string>, k: nat, n: nat)
    requires 0 < k <= |lines| && (n == 0 || NoStray(lines, k))
    ensures var d := Classify(lines[k - 1]); d.Else? || d.Endif? ==> OpenedAt(lines, k - 1).Then? || n == 0
  {
  }

  lemma {:induction false} RunStep<B>(effect: Effect<B>, start: State<B>, lines: seq<string>, k: nat)
    requires 0 < k <= |lines|
    ensures Run(effect, start, lines, k).ppStack ==
            Preprocess(Run(effect, start, lines, k - 1), Classify(lines[k - 1])).ppStack
    ensures Run(effect, start, lines, k - 1).stack == StackBefore(effect, start, lines, k - 1)
  {
  }

  /** The checkpoints a run adds hold the stacks that it had before the #if lines still open. */
  lemma {:induction false} RunSaves<B>(effect: Effect<B>, start: State<B>, lines: seq<string>, k: nat)
    requires k <= |lines|
    requires start.ppStack == [] || NoStray(lines, k)
    ensures Saved(effect, start, lines, Run(effect, start, lines, k).ppStack, |start.ppStack|, OpenedAt(lines, k))
  {
    hide Classify;
    if k > 0 {
      RunSaves(effect, start, lines, k - 1);
      NotStray(lines, k, |start.ppStack|);
      RunStep(effect, start, lines, k);
      SavedStep(effect, start, lines, Run(effect, start, lines, k - 1), |start.ppStack|, OpenedAt(lines, k - 1),
                Classify(lines[k - 1]), k - 1);
    }
  }

  /** The number of the innermost open #if line. */
  function InnermostIf(lines: seq<string>, k: nat): nat
    requires k <= |lines| && Open(lines, k) != []
  {
    OpenedAt(lines, k).last
  }

  /** The checkpoint an #else goes back to is the stack of the innermost open #if line. */
  lemma {:induction false} InnermostSaved<B>(effect: Effect<B>, start: State<B>, lines: seq<string>, k: nat)
    requires k <= |lines| && Open(lines, k) != []
    requires start.ppStack == [] || NoStray(lines, k)
    ensures var ppStack := Run(effect, start, lines, k).ppStack;
            ppStack != []
            && ppStack[|ppStack| - 1].stackBeforeIf == StackBefore(effect, start, lines, InnermostIf(lines, k))
  {
    hide Classify;
    RunSaves(effect, start, lines, k);
  }

  /** That line is an earlier #if. */
  lemma {:induction false} InnermostIsIf(lines: seq<string>, k: nat)
    requires k <= |lines| && Open(lines, k) != []
    ensures InnermostIf(lines, k) < k && Classify(lines[InnermostIf(lines, k)]).If?
  {
    hide Classify;
    AllAreIfs(lines, k, OpenedAt(lines, k));
  }

  predicate Within(at: History<nat>, whole: History<nat>) {
    at == whole || (whole.Then? && Within(at, whole.before))
  }

  lemma {:induction false} AllAreIfs(lines: seq<string>, k: nat, at: History<nat>)
    requires k <= |lines| && Within(at, OpenedAt(lines, k)) && at.Then?
    ensures at.last < k && Classify(lines[at.last]).If?
  {
    hide Classify;
    var d, before := Classify(lines[k - 1]), OpenedAt(lines, k - 1);
    if d.If? && at == OpenedAt(lines, k) {
    } else {
      if d.Endif? && before.Then? {
        assert Within(at, before);
      }
      AllAreIfs(lines, k - 1, at);
    }
  }

  /** Every #else and #elif branch starts from the stack its #if line found. */
  lemma {:induction false} BranchesStartAlike<B>(effect: Effect<B>, start: State<B>, lines: seq<string>, k: nat)
    requires k < |lines| && Classify(lines[k]).Else? && Open(lines, k) != []
    requires start.ppStack == [] || NoStray(lines, k)
    ensures var found := StackBefore(effect, start, lines, InnermostIf(lines, k));
            && Preprocess(Run(effect, start, lines, k), Else).stack == found
            && Run(effect, start, lines, k + 1).stack == effect(lines, k, found)
  {
    hide Classify;
    InnermostSaved(effect, start, lines, k);
  }
}
