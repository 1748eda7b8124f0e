// ArgvToCommandLine, the Windows argument quoter, and the Microsoft C rules that take its output apart.

module CommandLine {
  import opened Slices
  import opened Trimming

  function Backslashes(n: nat): (s: string)
    ensures |s| == n && forall i :: 0 <= i < n ==> s[i] == '\\'
  {
    seq(n, _ => '\\')
  }

  // ----- Quoting -----

  predicate NeedsQuotes(arg: string) {
    ' ' in arg || '\t' in arg || '\n' in arg || '\U{b}' in arg || '"' in arg
  }

  /** The text between the quotes for backslashes `pending` followed by `rest`. */
  function Escaped(rest: string, pending: nat): string
    decreases rest
  {
    if rest == [] then Backslashes(2 * pending)
    else if rest[0] == '\\' then Escaped(rest[1..], pending + 1)
    else if rest[0] == '"' then Backslashes(2 * pending + 1) + ['"'] + Escaped(rest[1..], 0)
    else Backslashes(pending) + [rest[0]] + Escaped(rest[1..], 0)
  }

  function Word(arg: string, preserve: bool): string {
    if preserve || !NeedsQuotes(arg) then arg else ['"'] + Escaped(arg, 0) + ['"']
  }

  function NonEmptyArgs(args: seq<string>): seq<string> {
    if args == [] then []
    else NonEmptyArgs(args[..|args| - 1]) + if args[|args| - 1] == [] then [] else [args[|args| - 1]]
  }

  /** Every word followed by a space. */
  function Joined(args: seq<string>, preserve: bool): string {
    if args == [] then []
    else Joined(args[..|args| - 1], preserve)
         + if args[|args| - 1] == [] then [] else Word(args[|args| - 1], preserve) + [' ']
  }

  /** A word is followed by a space; it is put between quotes exactly when that is not forbidden and it has a space, a
      tab, a newline, a vertical tab or a quote in it. */
  lemma JoinedOne(arg: string, preserve: bool)
    ensures Joined([], preserve) == [] && Joined([[]], preserve) == []
    ensures arg != [] && (preserve || forall i :: 0 <= i < |arg| ==> arg[i] !in " \t\n\U{b}\"") ==>
              Joined([arg], preserve) == arg + " "
    ensures !preserve && (exists i :: 0 <= i < |arg| && arg[i] in " \t\n\U{b}\"") ==>
              Joined([arg], preserve) == "\"" + Escaped(arg, 0) + "\" "
  {
    assert [arg][..0] == [];
    var empty: seq<string> := [[]];
    assert empty[..0] == [];
    assert NeedsQuotes(arg) <==> exists i :: 0 <= i < |arg| && arg[i] in " \t\n\U{b}\"";
    assert ['"'] + Escaped(arg, 0) + ['"'] + [' '] == "\"" + Escaped(arg, 0) + "\" ";
  }

  lemma {:induction false} JoinedConcat(a: seq<string>, b: seq<string>, preserve: bool)
    ensures Joined(a + b, preserve) == Joined(a, preserve) + Joined(b, preserve)
    decreases |b|
  {
    if b == [] {
      assert a + b == a;
    } else {
      var n, last := |b| - 1, b[|b| - 1];
      var word := if last == [] then [] else Word(last, preserve) + [' '];
      assert (a + b)[..|a| + n] == a + b[..n];
      JoinedConcat(a, b[..n], preserve);
      Associates(Joined(a, preserve), Joined(b[..n], preserve), word);
    }
  }

  lemma Associates(a: string, b: string, c: string)
    ensures (a + b) + c == a + (b + c)
  {
  }

  lemma {:induction false} NonEmptyConcat(a: seq<string>, b: seq<string>)
    ensures NonEmptyArgs(a + b) == NonEmptyArgs(a) + NonEmptyArgs(b)
    decreases |b|
  {
    if b == [] {
      assert a + b == a;
    } else {
      var n, last := |b| - 1, b[|b| - 1];
      assert (a + b)[..|a| + n] == a + b[..n];
      NonEmptyConcat(a, b[..n]);
      ConcatAssociates(NonEmptyArgs(a), NonEmptyArgs(b[..n]), if last == [] then [] else [last]);
    }
  }

  lemma NonEmptyOne(arg: string)
    ensures NonEmptyArgs([arg]) == if arg == [] then [] else [arg]
  {
    assert [arg][..0] == [];
  }

  method ArgvToCommandLine(arguments: seq<string>, preserve: bool) returns (commandline: string)
    ensures commandline == TrimRight(Joined(arguments, preserve))
  {
    commandline := [];
    for k := 0 to |arguments|
      invariant commandline == Joined(arguments[..k], preserve)
    {
      var arg := arguments[k];
      assert arguments[..k + 1][..k] == arguments[..k];
      if arg == [] {
        continue;
      }
      if preserve || !NeedsQuotes(arg) {
        commandline := commandline + arg;
      } else {
        commandline := AppendQuoted(commandline, arg);
      }
      commandline := commandline + [' '];
    }
    assert arguments[..|arguments|] == arguments;
    commandline := TrimRight(commandline);
  }

  method AppendQuoted(start: string, arg: string) returns (commandline: string)
    ensures commandline == start + (['"'] + Escaped(arg, 0) + ['"'])
  {
    commandline := start + ['"'];
    var it := 0;
    while true
      invariant 0 <= it <= |arg|
      invariant commandline + Escaped(Erased(arg, it), 0) == start + ['"'] + Escaped(arg, 0)
      decreases |arg| - it
    {
      ghost var from := it;
      var backslashes := 0;
      while it < |arg| && arg[it] == '\\'
        invariant from <= it <= |arg|
        invariant Escaped(Erased(arg, from), 0) == Escaped(Erased(arg, it), backslashes)
      {
        ErasedStep(arg, it);
        it := it + 1;
        backslashes := backslashes + 1;
      }
      if it == |arg| {
        commandline := commandline + Backslashes(backslashes * 2);
        break;
      }
      EscapedStep(commandline, arg, it, backslashes);
      if arg[it] == '"' {
        commandline := commandline + Backslashes(backslashes * 2 + 1);
      } else {
        commandline := commandline + Backslashes(backslashes);
      }
      commandline := commandline + [arg[it]];
      it := it + 1;
    }
    commandline := commandline + ['"'];
  }

  /** What the character at `it` and the backslashes before it add to the line. */
  lemma EscapedStep(commandline: string, arg: string, it: nat, backslashes: nat)
    requires it < |arg| && arg[it] != '\\'
    ensures commandline + Escaped(Erased(arg, it), backslashes) ==
            (commandline + SlashesBefore(arg[it], backslashes) + [arg[it]]) + Escaped(Erased(arg, it + 1), 0)
  {
    ErasedStep(arg, it);
    var slashes, c, tail := SlashesBefore(arg[it], backslashes), [arg[it]], Escaped(Erased(arg, it + 1), 0);
    assert commandline + (slashes + c + tail) == (commandline + slashes + c) + tail;
  }

  // ----- The Microsoft C argument rules -----

  /** The argument being read: its text so far, whether anything of it was seen, whether inside quotes, and
      the backslashes just seen, whose meaning depends on what follows. */
  datatype Scan = Scan(text: string, started: bool, quoted: bool, backslashes: nat)

  const START := Scan([], false, false, 0)

  function Ended(st: Scan): seq<string> {
    if st.started then [st.text + Backslashes(st.backslashes)] else []
  }

  /** Takes a command line apart. 2n backslashes and a quote are n backslashes and a quote that opens or
      closes; 2n+1 backslashes and a quote are n backslashes and a literal quote; other backslashes are
      literal. With `doubled`, a doubled quote inside quotes is a literal one, as newer runtimes have it. */
  function Parse(doubled: bool, s: string, st: Scan): seq<string>
    decreases |s|
  {
    if s == [] then Ended(st)
    else if s[0] == '\\' then Parse(doubled, s[1..], st.(started := true, backslashes := st.backslashes + 1))
    else if s[0] == '"' then
      var text := st.text + Backslashes(st.backslashes / 2);
      if st.backslashes % 2 == 1 then
        Parse(doubled, s[1..], Scan(text + ['"'], true, st.quoted, 0))
      else if doubled && st.quoted && |s| > 1 && s[1] == '"' then
        Parse(doubled, s[2..], Scan(text + ['"'], true, true, 0))
      else
        Parse(doubled, s[1..], Scan(text, true, !st.quoted, 0))
    else if (s[0] == ' ' || s[0] == '\t') && !st.quoted then
      Ended(st) + Parse(doubled, s[1..], START)
    else
      Parse(doubled, s[1..], Scan(st.text + Backslashes(st.backslashes) + [s[0]], true, st.quoted, 0))
  }

  lemma {:induction false} ParseBackslashes(doubled: bool, n: nat, s: string, st: Scan)
    ensures Parse(doubled, Backslashes(n) + s, st) ==
            Parse(doubled, s, st.(started := st.started || n > 0, backslashes := st.backslashes + n))
    decreases n
  {
    if n == 0 {
      assert Backslashes(0) + s == s;
    } else {
      var t := Backslashes(n) + s;
      assert t[0] == '\\' && t[1..] == Backslashes(n - 1) + s;
      ParseBackslashes(doubled, n - 1, s, st.(started := true, backslashes := st.backslashes + 1));
    }
  }

  /** 2n backslashes and a quote are n backslashes and a quote that opens or closes. */
  lemma EvenBackslashes(doubled: bool, n: nat, s: string, text: string, started: bool, quoted: bool)
    requires doubled && quoted ==> s == [] || s[0] != '"'
    ensures Parse(doubled, Backslashes(2 * n) + ("\"" + s), Scan(text, started, quoted, 0)) ==
            Parse(doubled, s, Scan(text + Backslashes(n), true, !quoted, 0))
  {
    ParseBackslashes(doubled, 2 * n, "\"" + s, Scan(text, started, quoted, 0));
    assert ("\"" + s)[1..] == s;
  }

  /** 2n+1 backslashes and a quote are n backslashes and a literal quote. */
  lemma OddBackslashes(doubled: bool, n: nat, s: string, text: string, started: bool, quoted: bool)
    ensures Parse(doubled, Backslashes(2 * n + 1) + ("\"" + s), Scan(text, started, quoted, 0)) ==
            Parse(doubled, s, Scan(text + Backslashes(n) + "\"", true, quoted, 0))
  {
    ParseBackslashes(doubled, 2 * n + 1, "\"" + s, Scan(text, started, quoted, 0));
    assert ("\"" + s)[1..] == s;
  }

  /** Other backslashes are literal, and so is any other character but a space or a tab outside quotes. */
  lemma LiteralBackslashes(doubled: bool, n: nat, c: char, s: string, text: string, started: bool, quoted: bool)
    requires c != '\\' && c != '"' && (quoted || (c != ' ' && c != '\t'))
    ensures Parse(doubled, Backslashes(n) + ([c] + s), Scan(text, started, quoted, 0)) ==
            Parse(doubled, s, Scan(text + Backslashes(n) + [c], true, quoted, 0))
  {
    ParseBackslashes(doubled, n, [c] + s, Scan(text, started, quoted, 0));
    assert ([c] + s)[1..] == s;
  }

  /** A space or a tab outside quotes ends an argument, if one was begun, and so does the end of the line. */
  lemma ArgumentsEnd(doubled: bool, n: nat, c: char, s: string, text: string, started: bool)
    requires c == ' ' || c == '\t'
    ensures var ended := if started || n > 0 then [text + Backslashes(n)] else [];
            && Parse(doubled, Backslashes(n) + ([c] + s), Scan(text, started, false, 0)) ==
               ended + Parse(doubled, s, Scan([], false, false, 0))
            && Parse(doubled, Backslashes(n), Scan(text, started, false, 0)) == ended
  {
    ParseBackslashes(doubled, n, [c] + s, Scan(text, started, false, 0));
    assert ([c] + s)[1..] == s;
    ParseBackslashes(doubled, n, [], Scan(text, started, false, 0));
    assert Backslashes(n) + [] == Backslashes(n);
  }

  /** Where doubled quotes are literal, a pair of them inside quotes is one, and the quotes go on. */
  lemma DoubledQuote(s: string, text: string)
    ensures Parse(true, "\"\"" + s, Scan(text, true, true, 0)) == Parse(true, s, Scan(text + "\"", true, true, 0))
  {
    assert ("\"\"" + s)[2..] == s;
    assert text + Backslashes(0) == text;
  }

  /** Inside quotes, the escaped text and its closing quote are read back as the text. */
  lemma {:induction false} ParseEscaped(doubled: bool, rest: string, pending: nat, text: string, tail: string)
    requires tail == [] || tail[0] != '"'
    ensures Parse(doubled, Escaped(rest, pending) + (['"'] + tail), Scan(text, true, true, 0)) ==
            Parse(doubled, tail, Scan(text + Backslashes(pending) + rest, true, false, 0))
    decreases rest
  {
    var close := ['"'] + tail;
    if rest == [] {
      ParseBackslashes(doubled, 2 * pending, close, Scan(text, true, true, 0));
      assert close[1..] == tail;
      assert text + Backslashes(pending) + rest == text + Backslashes(pending);
    } else if rest[0] == '\\' {
      ParseEscaped(doubled, rest[1..], pending + 1, text, tail);
      assert Backslashes(pending + 1) + rest[1..] == Backslashes(pending) + rest;
      assert text + Backslashes(pending + 1) + rest[1..] == text + Backslashes(pending) + rest;
    } else {
      var read := text + Backslashes(pending) + [rest[0]];
      ParseEscapedChar(doubled, rest[0], pending, text, Escaped(rest[1..], 0) + close);
      EscapedChar(rest, pending, close);
      ParseEscaped(doubled, rest[1..], 0, read, tail);
      assert read + Backslashes(0) + rest[1..] == text + Backslashes(pending) + rest;
    }
  }

  function SlashesBefore(c: char, pending: nat): string {
    Backslashes(if c == '"' then 2 * pending + 1 else pending)
  }

  lemma EscapedChar(rest: string, pending: nat, close: string)
    requires rest != [] && rest[0] != '\\'
    ensures Escaped(rest, pending) + close ==
            SlashesBefore(rest[0], pending) + ([rest[0]] + (Escaped(rest[1..], 0) + close))
  {
  }

  /** Inside quotes, a character and the backslashes before it are read as they were meant. */
  lemma ParseEscapedChar(doubled: bool, c: char, pending: nat, text: string, after: string)
    requires c != '\\'
    ensures Parse(doubled, SlashesBefore(c, pending) + ([c] + after), Scan(text, true, true, 0)) ==
            Parse(doubled, after, Scan(text + Backslashes(pending) + [c], true, true, 0))
  {
    var n := if c == '"' then 2 * pending + 1 else pending;
    var now := [c] + after;
    ParseBackslashes(doubled, n, now, Scan(text, true, true, 0));
    assert now[1..] == after;
  }

  /** Outside quotes, a word that needs none is read back up to the separator. */
  lemma {:induction false} ParsePlain(doubled: bool, rest: string, st: Scan, tail: string)
    requires !NeedsQuotes(rest) && !st.quoted && (st.started || rest != [])
    requires tail == [] || tail[0] == ' '
    ensures var word := st.text + Backslashes(st.backslashes) + rest;
            Parse(doubled, rest + tail, st) == [word] + if tail == [] then [] else Parse(doubled, tail[1..], START)
    decreases rest
  {
    var word := st.text + Backslashes(st.backslashes) + rest;
    if rest == [] {
      assert rest + tail == tail;
      assert word == st.text + Backslashes(st.backslashes);
    } else {
      assert (rest + tail)[1..] == rest[1..] + tail;
      assert !NeedsQuotes(rest[1..]);
      var next := if rest[0] == '\\' then st.(started := true, backslashes := st.backslashes + 1)
                  else Scan(st.text + Backslashes(st.backslashes) + [rest[0]], true, false, 0);
      ParsePlain(doubled, rest[1..], next, tail);
      assert next.text + Backslashes(next.backslashes) + rest[1..] == word;
    }
  }

  /** One word, at the end of the line or followed by a space. */
  lemma ParseWord(doubled: bool, arg: string, tail: string)
    requires arg != [] && (tail == [] || tail[0] == ' ')
    ensures Parse(doubled, Word(arg, false) + tail, START) ==
            [arg] + if tail == [] then [] else Parse(doubled, tail[1..], START)
  {
    if NeedsQuotes(arg) {
      var line := Word(arg, false) + tail;
      assert line[1..] == Escaped(arg, 0) + (['"'] + tail);
      assert [] + Backslashes(0) == [];
      ParseEscaped(doubled, arg, 0, [], tail);
      assert [] + Backslashes(0) + arg == arg;
      assert arg + Backslashes(0) == arg;
    } else {
      ParsePlain(doubled, arg, START, tail);
      assert START.text + Backslashes(0) + arg == arg;
    }
  }

  lemma JoinedLast(args: seq<string>, tail: string)
    requires args != [] && args[|args| - 1] != []
    ensures Joined(args, false) + tail ==
            Joined(args[..|args| - 1], false) + (Word(args[|args| - 1], false) + ([' '] + tail))
  {
    var before, word := Joined(args[..|args| - 1], false), Word(args[|args| - 1], false);
    assert (before + (word + [' '])) + tail == before + (word + ([' '] + tail));
  }

  lemma ConcatAssociates(a: seq<string>, b: seq<string>, c: seq<string>)
    ensures (a + b) + c == a + (b + c)
  {
  }

  lemma {:induction false} ParseJoined(doubled: bool, args: seq<string>, tail: string)
    ensures Parse(doubled, Joined(args, false) + tail, START) == NonEmptyArgs(args) + Parse(doubled, tail, START)
    decreases |args|
  {
    if args == [] {
      assert Joined(args, false) + tail == tail;
    } else {
      var init, last := args[..|args| - 1], args[|args| - 1];
      if last == [] {
        assert Joined(args, false) == Joined(init, false);
        ParseJoined(doubled, init, tail);
      } else {
        var rest := [' '] + tail;
        JoinedLast(args, tail);
        ParseJoined(doubled, init, Word(last, false) + rest);
        ParseWord(doubled, last, rest);
        assert rest[1..] == tail;
        ConcatAssociates(NonEmptyArgs(init), [last], Parse(doubled, tail, START));
      }
    }
  }

  // ----- The final trim -----

  /** The last non-empty argument, [] when there is none. */
  function LastArg(args: seq<string>): string {
    if args == [] then [] else if args[|args| - 1] != [] then args[|args| - 1] else LastArg(args[..|args| - 1])
  }

  /** The word goes unquoted and ends in a carriage return or a form feed, the two whitespace characters
      that do not force quotes. */
  predicate Exposed(word: string) {
    word != [] && !NeedsQuotes(word) && (word[|word| - 1] == '\r' || word[|word| - 1] == '\U{c}')
  }

  /** Whether the final trim_right would eat into the last argument. */
  predicate LosesTail(args: seq<string>) {
    Exposed(LastArg(args))
  }

  lemma TrimOne(s: string, c: char)
    requires IsSpace(c)
    ensures TrimRight(s + [c]) == TrimRight(s)
  {
    assert (s + [c])[..|s|] == s;
  }

  /** Parsing a trimmed line that ends in an unquoted word gives at most one argument more than the words
      before it, and that argument is a prefix of the word, a proper one if the word ends in whitespace. */
  lemma {:induction false} ParseTrimmed(doubled: bool, args: seq<string>, word: string)
    requires !NeedsQuotes(word)
    ensures var r := Parse(doubled, TrimRight(Joined(args, false) + word), START);
            && |r| <= |NonEmptyArgs(args)| + 1
            && (|r| == |NonEmptyArgs(args)| + 1 ==>
                  word != [] && |r[|r| - 1]| <= |word| && (IsSpace(word[|word| - 1]) ==> |r[|r| - 1]| < |word|))
    decreases |args|, |word|
  {
    var before := Joined(args, false);
    if word == [] {
      assert before + word == before;
      if args == [] {
        assert Parse(doubled, [], START) == [];
      } else {
        var init, last := args[..|args| - 1], args[|args| - 1];
        if last == [] {
          assert before == Joined(init, false) + [];
          ParseTrimmed(doubled, init, []);
        } else {
          assert before == (Joined(init, false) + Word(last, false)) + [' '];
          TrimOne(Joined(init, false) + Word(last, false), ' ');
          if NeedsQuotes(last) {
            ParseUntrimmed(doubled, init, last);
          } else {
            ParseTrimmed(doubled, init, last);
          }
        }
      }
    } else {
      var c := word[|word| - 1];
      var init := word[..|word| - 1];
      assert before + word == (before + init) + [c];
      if IsSpace(c) {
        TrimOne(before + init, c);
        assert !NeedsQuotes(init);
        ParseTrimmed(doubled, args, init);
      } else {
        ParseUntrimmed(doubled, args, word);
      }
    }
  }

  /** A last word that does not end in whitespace survives the trim. */
  lemma ParseUntrimmed(doubled: bool, args: seq<string>, last: string)
    requires last != [] && (NeedsQuotes(last) || !IsSpace(last[|last| - 1]))
    ensures Parse(doubled, TrimRight(Joined(args, false) + Word(last, false)), START) == NonEmptyArgs(args) + [last]
  {
    var line := Joined(args, false) + Word(last, false);
    assert line[|line| - 1] == Word(last, false)[|Word(last, false)| - 1];
    assert TrimRight(line) == line;
    ParseJoined(doubled, args, Word(last, false));
    ParseWord(doubled, last, []);
    assert Word(last, false) + [] == Word(last, false);
  }

  /** The last word survives the trim if and only if it is not exposed. */
  lemma LastSurvives(doubled: bool, init: seq<string>, last: string)
    requires last != []
    ensures Parse(doubled, TrimRight(Joined(init, false) + Word(last, false)), START) == NonEmptyArgs(init) + [last]
            <==> !Exposed(last)
  {
    if Exposed(last) {
      ParseTrimmed(doubled, init, last);
      assert (NonEmptyArgs(init) + [last])[|NonEmptyArgs(init)|] == last;
    } else {
      if !NeedsQuotes(last) {
        TrailingSpace(last);
      }
      ParseUntrimmed(doubled, init, last);
    }
  }

  /** The round trip, exactly: a program that follows the Microsoft C rules gets the non-empty arguments in
      order if and only if the final trim leaves the last one alone. */
  lemma {:induction false} RoundTrip(doubled: bool, args: seq<string>)
    ensures Parse(doubled, TrimRight(Joined(args, false)), START) == NonEmptyArgs(args) <==> !LosesTail(args)
    decreases |args|
  {
    if args != [] {
      var init, last := args[..|args| - 1], args[|args| - 1];
      if last == [] {
        assert Joined(args, false) == Joined(init, false);
        RoundTrip(doubled, init);
      } else {
        var line := Joined(init, false) + Word(last, false);
        assert Joined(args, false) == line + [' '];
        TrimOne(line, ' ');
        LastSurvives(doubled, init, last);
      }
    }
  }

  /** An argument that is not passed on: its carriage return is trimmed. */
  lemma CarriageReturnIsLost(doubled: bool)
    ensures Parse(doubled, TrimRight(Joined(["a\r"], false)), START) != NonEmptyArgs(["a\r"])
  {
    var args := ["a\r"];
    assert LastArg(args) == "a\r" && !NeedsQuotes("a\r");
    RoundTrip(doubled, args);
  }

  /** So is a form feed. */
  lemma FormFeedIsLost(doubled: bool)
    ensures Parse(doubled, TrimRight(Joined(["a\U{c}"], false)), START) != NonEmptyArgs(["a\U{c}"])
  {
    var args := ["a\U{c}"];
    assert LastArg(args) == "a\U{c}" && !NeedsQuotes("a\U{c}");
    RoundTrip(doubled, args);
  }

  /** Whitespace at the end of an unquoted word is a carriage return or a form feed. */
  lemma TrailingSpace(word: string)
    requires word != [] && !NeedsQuotes(word)
    ensures IsSpace(word[|word| - 1]) <==> word[|word| - 1] == '\r' || word[|word| - 1] == '\U{c}'
  {
    assert word[|word| - 1] in word;
  }
}
