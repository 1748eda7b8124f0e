# Leatherman, modelled and proved in Dafny

These modules model the parts of Leatherman that carry the most state and the most branching, and prove what they
are for. Each module follows one source file or one component of it; code that works step by step is a class or a
method with loops, proved against a function, and the laws are proved about that function.

| Module | File | Models |
|---|---|---|
| `Lines`, `Streams`, `Execution` | `lines.dfy`, `streams.dfy`, `execution.dfy` | `each_line`, `process_data`, `process_streams`, `execute` and execute-to-file on POSIX |
| `PosixPipes` | `posix_pipes.dfy` | the `select` loop over the three pipes to a child |
| `OverlappedPipes` | `overlapped_pipes.dfy` | the Windows loop over overlapped pipe operations |
| `CommandLine`, `EnvironmentBlock` | `command_line.dfy`, `environment_block.dfy` | the Windows argument quoter and environment block, and their readers |
| `Brackets`, `BracketGrammar`, `AngleBrackets` | `brackets.dfy`, `bracket_grammar.dfy`, `angle_brackets.dfy` | cpplint's forward and backward bracket scans |
| `NestingState`, `MultiLineComments` | `nesting_state.dfy`, `multi_line_comments.dfy` | cpplint's `#if` snapshots and comment removal |
| `JsonContainer` | `json_container.dfy` | reading and writing values along a path of keys |
| `UriParts` | `uri.dfy` | the URI parser and printer |
| `ScopedResource`, `ScopedEnv` | `scoped.dfy` | single-owner resources and scoped environment variables |
| `Download` | `download.dfy` | downloading through a temporary file |
| `OptionSet` | `option_set.dfy` | bit sets and their count |
| `Options`, `Histories`, `Searching`, `Slices`, `Trimming`, `Callbacks`, `Buffers` | `foundation.dfy` | what the others share |

## How the outside world is modelled

The kernel is a script: a sequence of rounds (POSIX) or turns (Windows) that says what every `select`, `read`,
`write`, `ReadFile`, `WriteFile`, wait and timer answers. The theorems hold for every script, so for every
schedule, every chunking and every error. A run whose script is over ends as `Running` (`GoOn` on Windows).

A callback is a function from everything it has been handed to whether it wants more, so any deterministic callback
with a state of its own is covered; the calls made to it are recorded.

## Main results

- Output. For every schedule and chunking, what the callbacks are handed, what `execute` returns and what
  execute-to-file writes are functions of the bytes each pipe delivered, and those are decided by the answers to that
  pipe alone. Without trimming, the lines are those of `each_line` if and only if no line ends in a carriage return.
- Loops. Each round of the POSIX loop and each turn of the overlapped one ends the way the script says and no other
  way; a refused line stops it at once, and on POSIX interrupted calls leave no trace. Both loops conserve input and
  output, and never touch a buffer in flight. For the same results both do the same to a pipe, except that a broken
  input pipe makes the POSIX loop throw unless unread input is allowed.
- Brackets. The treatment of `<`, `>`, `;`, `->` and `operator` never changes a match of `(`, `[` or `{`; the match is
  the one a grammar of nested text prescribes on the concatenated lines; and the two scans are inverse. Between angle
  brackets that are found to match, the text is nested by the same grammar.
- Conditionals. After any run in which every `#if` is closed, the nesting stack is the one from running the first
  branch of every conditional only, whatever each line, directive or not, does to the stack.
- Printers and parsers. The command line, the environment block and the URI each have their round trip with the exact
  condition for it.
- JSON paths. Get after set, framing, order of members, set after set, and all-or-nothing failure with its exact
  condition.

## Where the code does less than its documentation says

- `ArgvToCommandLine` trims more than the space it appended: an unquoted last argument that ends in a carriage
  return or a form feed loses it. `CommandLine.RoundTrip` gives the exact condition, `CommandLine.CarriageReturnIsLost`
  an instance.
- `each_line` strips a carriage return from every line and the POSIX stream does not, so the two differ on text
  with such lines. `Execution.StreamingIsEachLineExactly` gives the exact condition, `Execution.CarriageReturnsDiffer`
  an instance.
- A URI with `://` and no protocol, or with a colon and no port, does not print back to itself.
  `UriParts.PrintParsed` gives the exact condition, `UriParts.SeparatorAndColonAreLost` two instances, and
  `UriParts.ParsePrinted` the condition for the other direction.
- Scopes on the same environment variable that end in the order they were opened leave the inner value behind.
  `ScopedEnv.RestoresWhen` gives the exact condition, `ScopedEnv.RepeatedNamesInOrderDoNotRestore` an instance.
- `CloseExpression` on the `<` of an operator's name finds the end of another expression:
  `AngleBrackets.OperatorNamesMislead` is an instance, and `AngleBrackets.FindsAngleWhen` gives the exact condition for
  what is found to be a `>`.

## Model

| member | source | states |
|---|---|---|
| `Lines.EachLine` | util/src/strings.cc:27-39 | the callback is handed the lines of the text without a trailing carriage return each, up to and including the first it refuses; an unterminated last line counts unless it is empty |
| `Lines.CompletedConcat` | execution/src/execution.cc:395-451 | cutting text at newlines is chunk-independent: the lines of a concatenation are those of the first part, then those of the second begun with the first one's open line |
| `Lines.UnlinesOfLines` | execution/src/execution.cc:309-318 | writing every line followed by a newline gives the text back, plus one newline exactly when it is non-empty and unterminated |
| `Lines.LinesOfUnlines` | execution/src/execution.cc:309-318 | the inverse: newline-free lines written that way are read back as the same lines |
| `Lines.CompletedHasNoNewline` | execution/src/execution.cc:401-418 | no line that is handed over holds a newline |
| `Lines.FirstLine` | util/src/strings.cc:29-30 | a newline-free piece before a newline is the first line of a text, and the only line of a text without one, unless it is empty |
| `Lines.UnlinesOne` | execution/src/execution.cc:309-318 | one line is written as it is, with one newline after it |
| `Lines.OneCrIsStripped` | util/src/strings.cc:31-34 | exactly one carriage return is stripped, and only from the end |
| `Lines.CrStrippingIsInvisible` | util/src/strings.cc:31-34 | stripping changes nothing if and only if no line ends in a carriage return |
| `Callbacks.TakenIsPrefix` | execution/src/execution.cc:438-447 | a callback is handed a prefix of what is offered, in which every proper prefix was accepted and which is cut short only by a refusal of its last item |
| `Trimming.TrimLaw` | execution/src/execution.cc:420-423 | trimming removes whitespace only, and leaves none at either end |
| `Trimming.WhitespaceExactly` | execution/src/execution.cc:420-423 | what is trimmed is a space, tab, newline, carriage return, vertical tab or form feed, and nothing else |
| `Trimming.TrimOf` | execution/src/execution.cc:420-423 | a text without whitespace at its ends comes out of any whitespace around it |
| `Streams.Stream.ProcessData` | execution/src/execution.cc:387-453 | after any chunks, the calls made are those owed for the complete lines of all text so far and the buffer is the open line (all text without a callback, nothing after a refusal); it answers false exactly when a complete line was refused |
| `Streams.Stream.EndLine` | execution/src/execution.cc:416-447 | one more newline-terminated piece ends the open line, and is handed over unless trimming makes it empty |
| `Streams.Stream.SplitLines` | execution/src/execution.cc:407-448 | every newline-terminated piece of a chunk is handed over in order until one is refused |
| `Streams.FindLastNewline` | execution/src/execution.cc:400-405 | the index found holds a newline and nothing after it does; -1 means there is none |
| `Streams.LineEnded` | execution/src/execution.cc:416-447 | one more newline adds exactly the line made of the open line and the piece, trimmed and dropped when empty under trimming, and is refused exactly when the callback refuses that line |
| `Streams.OfferedOne` | execution/src/execution.cc:420-429 | a line is offered as it is, or trimmed and then only when it is not blank |
| `Streams.OfferedConcat` | execution/src/execution.cc:416-447 | what is offered for some lines does not depend on the others |
| `Streams.StopEarly` | execution/src/execution.cc:444-447 | after a refusal further text is neither delivered nor changes the refusal |
| `Streams.Stream.Finish` | execution/src/execution.cc:482-507 | in the end a callback has been handed exactly the lines of the whole text, trimmed and non-empty under trimming, up to the first refused one; the captured output is empty with a callback and the (trimmed) text without |
| `Streams.LastLine` | execution/src/execution.cc:482-505 | the unterminated last line adds one call exactly when no earlier line was refused and it is non-empty (after trimming) |
| `PosixPipes.Pipe.Reader` | execution/src/posix/execution.cc:191-197 | a fresh pipe to read from has moved nothing and feeds its stream |
| `PosixPipes.Pipe.Writer` | execution/src/posix/execution.cc:200-206 | a fresh pipe to write to has the whole input left |
| `PosixPipes.Pipe.Prepare` | execution/src/posix/execution.cc:226-239 | sizes the buffer of an open read without moving a byte, and leaves -1 exactly when every pipe so far is closed |
| `PosixPipes.Pipe.Serve` | execution/src/posix/execution.cc:262-300 | one answer moves bytes, closes or throws as the one-pipe reference says; every byte read has gone to the stream; it throws exactly on a failing answer and stops exactly on a refusal |
| `PosixPipes.FatalExactly` | execution/src/posix/execution.cc:271-282 | exactly these answers throw: an error that is neither EINTR nor an EPIPE on standard input that may stay unread |
| `PosixPipes.FailedCall` | execution/src/posix/execution.cc:271-282 | a failing call leaves a pipe as it is, except that an allowed EPIPE closes it |
| `PosixPipes.ReadCall` | execution/src/posix/execution.cc:237-295 | a read appends what there is, at most 4096 bytes, and end of file closes the pipe |
| `PosixPipes.WriteCall` | execution/src/posix/execution.cc:268-299 | a write takes as much as there is room for off the front of the input |
| `PosixPipes.PrepareAll` | execution/src/posix/execution.cc:224-244 | -1 exactly when all three pipes are closed |
| `PosixPipes.ServeAll` | execution/src/posix/execution.cc:262-300 | the pipes served are those before the first failure or refusal, and the others are untouched |
| `PosixPipes.RunRound` | execution/src/posix/execution.cc:221-300 | a round goes on exactly when some pipe is open and nothing fails or is refused, and otherwise ends in the one way the script allows |
| `PosixPipes.RwFromChild` | execution/src/posix/execution.cc:215-306 | for every script: no failure, timeout or refusal before the last round; it finishes only with all pipes closed, stops only and at once on a refusal, and the three pipes are what each makes of its own answers |
| `PosixPipes.EndsBeforeServing` | execution/src/posix/execution.cc:220-244 | the timeout is looked at before the pipes, and the loop finishes exactly when all three are closed |
| `PosixPipes.FailsExactly` | execution/src/posix/execution.cc:248-282 | a round fails exactly when select does, or at the first pipe in order that gets a fatal answer; a refusal comes after that pipe's answer was good |
| `PosixPipes.ServedInOrder` | execution/src/posix/execution.cc:262-300 | each pipe gets its own answer, in the order output, error output, input |
| `PosixPipes.InterruptionsAreInvisible` | execution/src/posix/execution.cc:249-280 | without the interrupted calls of select, read and write, the loop goes through the same rounds, ends the same way and leaves the pipes the same |
| `PosixPipes.AloneIsReplay` | execution/src/posix/execution.cc:262-300 | what has crossed a pipe depends only on the answers it got, in order, not on the rounds they came in |
| `PosixPipes.AfterIsReplay` | execution/src/posix/execution.cc:215-306 | the same for the three pipes of a whole run, wherever it ends |
| `PosixPipes.InputConserved` | execution/src/posix/execution.cc:270-298 | bytes written followed by bytes left are the input in every reachable state |
| `PosixPipes.InputClosesWhenWritten` | execution/src/posix/execution.cc:271-287 | standard input closes only when all of it is written, or after EPIPE when unread input is allowed |
| `PosixPipes.OutputGrows` | execution/src/posix/execution.cc:283-299 | received bytes are only ever appended to, and a closed pipe never changes again |
| `Execution.Execute` | execution/src/posix/execution.cc:587-596 | for every script: a loop that ends by itself or by a refusal has handed each callback the lines of all the bytes received, the unterminated last one included, up to the first refused one, and returns the (trimmed) bytes of a stream without callback; one that throws has handed over the complete lines only; it is stopped exactly when a complete line is refused |
| `Execution.ReadStreams` | execution/src/posix/execution.cc:588-596 | each stream has been given exactly the bytes its pipe delivered |
| `Execution.FinishedRunsWroteTheInput` | execution/src/posix/execution.cc:241-287 | a finished run has written the whole input, unless EPIPE came and was allowed |
| `Execution.StreamingIsEachLine` | execution/src/execution.cc:387-508 | without trimming and carriage returns, a callback is handed what each_line hands it on the whole text |
| `Execution.StreamingIsEachLineExactly` | util/src/strings.cc:27-39 | both agree for every callback if and only if no line ends in a carriage return |
| `Execution.CarriageReturnsDiffer` | util/src/strings.cc:31-34 | an instance: on one line that ends in a carriage return each_line hands over another line than the stream |
| `Execution.RefusalIsFinal` | execution/src/execution.cc:444-447 | once a complete line is refused, the calls are those that any longer text would have led to |
| `Execution.WriteLines` | execution/src/execution.cc:309-318 | the file holds the lines that were handed over, a newline after each |
| `Execution.ExecuteToFile` | execution/src/execution.cc:261-323 | a finished run leaves the output file with the child's output and one newline when it is non-empty and unterminated (its trimmed non-empty lines under trimming), likewise the error file, or the error captured when there is none; any other run leaves the complete lines received; it never stops early |
| `Execution.TakesAll` | execution/src/execution.cc:309-318 | a callback that never refuses is handed every line that is owed |
| `Execution.FileIsTheText` | execution/src/execution.cc:309-318 | untrimmed, the file is the text, with one newline added exactly when it is non-empty and unterminated |
| `OverlappedPipes.Pipe.Reader` | execution/src/windows/execution.cc:224-233 | a fresh pipe to read from is idle and has moved nothing |
| `OverlappedPipes.Pipe.Writer` | execution/src/windows/execution.cc:236-244 | a fresh pipe to write to is idle and has the whole input left |
| `OverlappedPipes.Pipe.Issue` | execution/src/windows/execution.cc:296-312 | never called while an operation is in flight; a pending one holds the buffer it was issued with |
| `OverlappedPipes.Pipe.Collect` | execution/src/windows/execution.cc:381-388 | called only with the buffer as it was when the operation was issued |
| `OverlappedPipes.Pipe.Promises` | execution/src/windows/execution.cc:296-336 | in every valid state a pipe is what its results make of it; what was read has been handed over, converted; written and unwritten input are the input; a buffer in flight is untouched |
| `OverlappedPipes.Pipe.Register` | execution/src/windows/execution.cc:320-336 | bytes are conserved: what the callback was handed is what was read, less carriage returns when converting, and written plus left is the input |
| `OverlappedPipes.Pipe.Deliver` | execution/src/windows/execution.cc:380-409 | an error fails the run, nothing transferred closes the pipe, and anything else is registered; it stops exactly on a refusal |
| `OverlappedPipes.Pipe.RunUntilPending` | execution/src/windows/execution.cc:284-337 | goes on only with the pipe pending or closed and nothing refused; a timer that fired, a failed operation or a refusal ends it at that very attempt, and the pipe is what the results so far make of it |
| `OverlappedPipes.Pipe.JustifiesExactly` | execution/src/windows/execution.cc:284-318 | how it ends is what its attempts say: the timer, an error or the end of the script after attempts that met neither; stopped exactly by a refusal, going on exactly when closed or pending |
| `OverlappedPipes.Pipe.HandleEvent` | execution/src/windows/execution.cc:376-410 | collects the one result of the pending operation, after which nothing is in flight |
| `OverlappedPipes.SettleAll` | execution/src/windows/execution.cc:277-338 | goes on exactly with every open pipe pending; otherwise one pipe that is not settled accounts for the outcome and those before it are settled |
| `OverlappedPipes.WaitSet` | execution/src/windows/execution.cc:340-351 | the wait set holds the events of the pending pipes, and is empty exactly when all are closed |
| `OverlappedPipes.Await` | execution/src/windows/execution.cc:340-368 | finishes exactly when all pipes are closed, times out exactly on the index after the pipes with a timeout, fails exactly beyond the handles, and otherwise names the event of the open pipe with that index |
| `OverlappedPipes.Dispatch` | execution/src/windows/execution.cc:371-411 | the one pipe whose event was signalled collects the result; the others are not touched |
| `OverlappedPipes.RunTurn` | execution/src/windows/execution.cc:273-412 | a turn whose first phase went through ends in the one way its script says, apart from a refusal: finished, timed out, failed, or one result collected from the pipe that was signalled; otherwise one pipe accounts for how the first phase ended |
| `OverlappedPipes.FirstPhaseEnds` | execution/src/windows/execution.cc:277-338 | the pipes are settled in the order input, output, error output, and the first that does not settle ends the turn |
| `OverlappedPipes.TurnHandledExactly` | execution/src/windows/execution.cc:277-409 | a turn that reaches its second phase had no timer and no failure on any pipe in the first |
| `OverlappedPipes.SmoothExactly` | execution/src/windows/execution.cc:284-313 | an attempt that goes on is one on which the timer has not fired and nothing failed |
| `OverlappedPipes.HandlesExactly` | execution/src/windows/execution.cc:348-409 | the second phase finishes exactly when no pipe is open, times out exactly when the timer is signalled, fails exactly when nothing was or the signalled operation had failed, and otherwise only that pipe gets the result |
| `OverlappedPipes.SidesInOrder` | execution/src/windows/execution.cc:341-346 | the open pipes are waited for in their order |
| `OverlappedPipes.RwFromChild` | execution/src/windows/execution.cc:270-414 | in every reachable state each pipe is what the results it had make of it, and those come from the script turn by turn, each from the pipe that was signalled; the last turn accounts for a finish (all closed, all output delivered, all input written that was read to its end), a timeout, a failure or a refusal |
| `OverlappedPipes.FinishedIsComplete` | execution/src/windows/execution.cc:348-351 | a finished run leaves all pipes closed with nothing in flight, all output handed over, and all input written that was not cut off by a broken pipe |
| `OverlappedPipes.StoppedExactly` | execution/src/windows/execution.cc:328-331 | a run is stopped exactly by a callback that refuses the last chunk it was handed |
| `OverlappedPipes.FailedResult` | execution/src/windows/execution.cc:300-312 | a broken pipe is closed, any other failure leaves the pipe as it was |
| `OverlappedPipes.ReadResult` | execution/src/windows/execution.cc:290-322 | a read appends what there is, at most 4096 bytes, and nothing read closes the pipe |
| `OverlappedPipes.WriteResult` | execution/src/windows/execution.cc:296-336 | a write takes as much as there is room for off the front of the input |
| `OverlappedPipes.ConvertedConcat` | execution/src/windows/execution.cc:323-327 | dropping carriage returns chunk by chunk drops them from the whole |
| `OverlappedPipes.NoCrIsLeft` | execution/src/windows/execution.cc:323-327 | no carriage return is left by converting |
| `OverlappedPipes.OthersAreKept` | execution/src/windows/execution.cc:323-327 | text without one is not changed |
| `OverlappedPipes.OnlyCrsAreDropped` | execution/src/windows/execution.cc:323-327 | a carriage return goes when converting, and nothing does otherwise |
| `OverlappedPipes.ConcatIsConcat` | execution/src/windows/execution.cc:328-331 | the chunks handed over, one after the other |
| `OverlappedPipes.LoopsAgree` | execution/src/windows/execution.cc:300-336 | for the same results, the end of output by a broken pipe included, the overlapped loop does to a pipe what the select loop does; only a broken input pipe without allowed unread input is apart |
| `OverlappedPipes.BreaksThrowOnPosix` | execution/src/posix/execution.cc:271-282 | in that case the POSIX loop throws at the first break, where the overlapped one closes the pipe |
| `CommandLine.ArgvToCommandLine` | execution/src/windows/execution.cc:176-218 | the quoted non-empty arguments, one space between, trailing whitespace trimmed |
| `CommandLine.JoinedOne` | execution/src/windows/execution.cc:181-213 | a non-empty argument goes as it is when that is asked for or it holds none of space, tab, newline, vertical tab and quote, and between quotes otherwise; then a space |
| `CommandLine.JoinedConcat` | execution/src/windows/execution.cc:181-213 | the words of a list of arguments do not depend on the others |
| `CommandLine.AppendQuoted` | execution/src/windows/execution.cc:187-210 | the backslash-counting loop appends the escaped argument between quotes |
| `CommandLine.ParseEscaped` | execution/src/windows/execution.cc:187-210 | the Microsoft C rules read the escaped text and its closing quote back as the argument, whatever its backslashes and quotes |
| `CommandLine.EvenBackslashes` | execution/src/windows/execution.cc:193-203 | 2n backslashes and a quote are read as n backslashes, and the quote opens or closes |
| `CommandLine.OddBackslashes` | execution/src/windows/execution.cc:193-203 | 2n+1 backslashes and a quote are read as n backslashes and a quote |
| `CommandLine.LiteralBackslashes` | execution/src/windows/execution.cc:204-208 | backslashes before anything else are read as they are |
| `CommandLine.ArgumentsEnd` | execution/src/windows/execution.cc:213 | a space or a tab outside quotes ends an argument, and so does the end of the line |
| `CommandLine.ParsePlain` | execution/src/windows/execution.cc:184-185 | an argument that needs no quotes is read back as it is |
| `CommandLine.ParseJoined` | execution/src/windows/execution.cc:181-213 | before the trim, parsing gives the non-empty arguments in order |
| `CommandLine.ParseTrimmed` | execution/src/windows/execution.cc:215-217 | what the trim eats into cannot be read back: the last argument is shorter or missing |
| `CommandLine.LastSurvives` | execution/src/windows/execution.cc:215-217 | the last argument comes back whole if and only if it is quoted or does not end in a carriage return or form feed |
| `CommandLine.RoundTrip` | execution/src/windows/execution.cc:176-218 | parsing gives the non-empty arguments in order if and only if the last one, when unquoted, does not end in a carriage return or form feed; with and without the doubled-quote rule |
| `CommandLine.CarriageReturnIsLost` | execution/src/windows/execution.cc:215-217 | an instance: one argument that ends in a carriage return is not passed on |
| `CommandLine.FormFeedIsLost` | execution/src/windows/execution.cc:215-217 | and one that ends in a form feed |
| `CommandLine.TrailingSpace` | execution/src/windows/execution.cc:184-216 | the only whitespace an unquoted argument can end in is a carriage return or a form feed |
| `EnvironmentBlock.Trichotomy` | execution/src/windows/execution.cc:484-485 | names compared without case are ordered one way, or the same |
| `EnvironmentBlock.CaseIsAscii` | execution/src/windows/execution.cc:484-485 | two characters are the same when one is the other's ASCII capital; otherwise their capitals' codes are compared |
| `EnvironmentBlock.OrderIsLexicographic` | execution/src/windows/execution.cc:484-485 | the first characters that differ decide, and a proper prefix comes first |
| `EnvironmentBlock.InsertKeepsSorted` | execution/src/windows/execution.cc:486-488 | inserting keeps the names strictly increasing |
| `EnvironmentBlock.FindInsert` | execution/src/windows/execution.cc:486-501 | inserting adds the variable when its name is missing, and never changes another, or the value or spelling of an existing one |
| `EnvironmentBlock.InsertAllLaw` | execution/src/windows/execution.cc:484-501 | of several variables under one name the first inserted wins, spelling included |
| `EnvironmentBlock.SortEnvironment` | execution/src/windows/execution.cc:484-501 | the map is strictly sorted without case and holds, spelled as given, the caller's variables, then LC_ALL and LANG, inherited or C, where the caller has none |
| `EnvironmentBlock.LocaleOfChild` | execution/src/windows/execution.cc:490-501 | LC_ALL and LANG are the caller's when given; otherwise they are C, or what the parent has, if anything, when the locale is inherited; there are no other variables but the caller's |
| `EnvironmentBlock.SortedIsDetermined` | execution/src/windows/execution.cc:484-501 | a sorted map is determined by what is found in it |
| `EnvironmentBlock.BuildBlock` | execution/src/windows/execution.cc:503-517 | every NAME=value terminated, then one NUL, and a second when there is no variable |
| `EnvironmentBlock.BlockLayout` | execution/src/windows/execution.cc:503-517 | the bytes of a block: NAME=value and a NUL for each variable, another NUL at the end, two NULs when there is no variable |
| `EnvironmentBlock.BlockIsWellTerminated` | execution/src/windows/execution.cc:503-517 | the block ends in two NULs, or an entry and a NUL, so that no reader runs past it |
| `EnvironmentBlock.Each` | util/src/windows/environment.cc:50-73 | the callback is handed the variables of the block in order until it refuses, and the reader stays inside the block |
| `EnvironmentBlock.ReadPair` | util/src/windows/environment.cc:54-65 | a string is split at its first equals sign, and reading goes on after its NUL |
| `EnvironmentBlock.ReadName` | util/src/windows/environment.cc:54-65 | a string without one is all name, and nothing is read from an empty string on |
| `EnvironmentBlock.VariablesAreClean` | util/src/windows/environment.cc:55-65 | no name that is read holds an equals sign, and nothing holds a NUL |
| `EnvironmentBlock.RoundTrip` | execution/src/windows/execution.cc:503-517 | reading the block gives the map back if and only if no name holds an equals sign and nothing holds a NUL; the empty map included |
| `EnvironmentBlock.ChildEnvironment` | execution/src/windows/execution.cc:484-517 | from the caller's variables to what the child reads: sorted, and under each name the first variable given for it, if and only if each of those has no NUL and no equals sign in its name |
| `EnvironmentBlock.ReadsExactly` | execution/src/windows/execution.cc:484-517 | the same about any sorted map of these sources |
| `Brackets.DropAngles` | scripts/cpplint.py:1422-1423 | exactly the angle brackets on top of the stack are dropped |
| `Brackets.DropsNoBracket` | scripts/cpplint.py:1422-1423 | discarding angle brackets never reaches a bracket at the bottom, and takes no bracket away |
| `Brackets.FindEndOfExpressionInLine` | scripts/cpplint.py:1385-1460 | on any stack, the loop returns what the run of moves over the line does |
| `Brackets.CloseExpression` | scripts/cpplint.py:1463-1504 | the position returned is one past the match that the run over the lines finds, or -1 with the number of lines exactly when it finds none |
| `Brackets.NothingToMatch` | scripts/cpplint.py:1486-1488 | nothing is sought from any character but ([{<, nor from the first of << or <=; backward, from any but )]}> |
| `Brackets.LineByLine` | scripts/cpplint.py:1490-1504 | the match is on this line, or that of the next line with what still waits, as long as something does |
| `Brackets.ClosesItsPartner` | scripts/cpplint.py:1463-1504 | from ( [ or { the match is a ) ] or } of the same kind, and from there the backward scan returns where it began |
| `Brackets.AllKindsMatch` | scripts/cpplint.py:1426-1431 | instances: all three kinds of bracket are matched |
| `Brackets.ArrowsAndOperators` | scripts/cpplint.py:1411-1441 | whatever the stack, a > after - or after the word operator and one character is passed over, and so is a < right after that word |
| `Brackets.AnglePairs` | scripts/cpplint.py:1414-1450 | whatever the stack, any other < waits for a >, which takes it away, or ends the scan when it was the last; a > for which none waits is passed over |
| `Brackets.ShiftIsNoPair` | scripts/cpplint.py:1405-1410 | a left shift is passed over by a scan inside of something and ends any other |
| `Brackets.WaitingAnglesEndAtSemicolon` | scripts/cpplint.py:1451-1457 | at a semicolon all waiting < are given up, which ends a scan inside of nothing else |
| `Brackets.WaitingAnglesEndAtCloser` | scripts/cpplint.py:1417-1425 | at a closer too, and it meets what is below them |
| `Brackets.ClosersMeet` | scripts/cpplint.py:1426-1434 | whatever the stack, a closer takes its partner away, ends the scan when that was the last, and fails it when it meets any other bracket |
| `Brackets.OpenersWait` | scripts/cpplint.py:1398-1460 | an opener waits on the stack, any character without a meaning is passed over, and the line ends with what waits |
| `Brackets.OperatorExactly` | scripts/cpplint.py:1411 | the test for an operator's name holds exactly after the whole word and any whitespace |
| `Brackets.AnglesAreIgnored` | scripts/cpplint.py:1403-1457 | <, > and ; leave a scan that began on a bracket where it was |
| `Brackets.CloserIsPlain` | scripts/cpplint.py:1417-1434 | in such a scan a closer does what it does in a matcher without angle brackets |
| `Brackets.ForwardMoveIsPlain` | scripts/cpplint.py:1398-1457 | every move of such a scan is a step of the plain matcher |
| `Brackets.ForwardRunIsPlain` | scripts/cpplint.py:1385-1460 | on one line, such a scan answers what the plain matcher does and hands over a stack whose bottom is still a bracket |
| `Brackets.ForwardFileIsPlain` | scripts/cpplint.py:1463-1504 | over any number of lines, a scan that began on a bracket is the plain matcher |
| `Brackets.OperatorEndsInNoBracket` | scripts/cpplint.py:1531-1537 | a text matched by the operator test does not end in a bracket |
| `Brackets.FindStartOfExpressionInLine` | scripts/cpplint.py:1507-1581 | the backward counterpart for one line |
| `Brackets.ReverseCloseExpression` | scripts/cpplint.py:1584-1619 | the position returned is that of the match that the backward run over the lines finds, or 0 and -1 exactly when it finds none |
| `Brackets.OpensItsPartner` | scripts/cpplint.py:1584-1619 | from ) ] or } the match is a ( [ or { of the same kind, and from there the forward scan returns just past where it began |
| `Brackets.ArrowsAndOperatorsBackward` | scripts/cpplint.py:1529-1546 | the > of ->, of >= between spaces and of an operator's name is passed over with the character before it, and so is a left shift |
| `Brackets.AnglePairsBackward` | scripts/cpplint.py:1537-1553 | any other > waits for a <, which takes it away, or ends the scan when it was the last |
| `Brackets.WaitingAnglesEndAtSemicolonBackward` | scripts/cpplint.py:1571-1577 | at a semicolon all waiting > are given up |
| `Brackets.WaitingAnglesEndAtOpener` | scripts/cpplint.py:1554-1562 | at an opener too, and it meets what is below them |
| `Brackets.OpenersMeetBackward` | scripts/cpplint.py:1561-1569 | an opener takes its partner away, ends the scan when that was the last, and fails it when it meets any other |
| `Brackets.ClosersWaitBackward` | scripts/cpplint.py:1524-1581 | a closer waits on the stack, and any character without a meaning is passed over |
| `Brackets.LineByLineBackward` | scripts/cpplint.py:1605-1619 | the match is on this line, or that of the line before with what still waits |
| `Brackets.AnglesAreIgnoredBackward` | scripts/cpplint.py:1529-1577 | <, > and ; leave a backward scan that began on a bracket where it was |
| `Brackets.SkipsNoBracket` | scripts/cpplint.py:1529-1543 | a character passed over with an angle bracket is never a bracket |
| `Brackets.BackwardMoveIsPlain` | scripts/cpplint.py:1525-1579 | every move of such a scan is a step of the plain backward matcher |
| `Brackets.BackwardRunIsPlain` | scripts/cpplint.py:1507-1581 | the same over one line |
| `Brackets.BackwardFileIsPlain` | scripts/cpplint.py:1584-1619 | over any number of lines, a backward scan that began on a bracket is the plain matcher |
| `Brackets.BackFrom` | scripts/cpplint.py:1495-1501 | when a forward scan with a stack succeeds, the backward scan from there arrives at its start with the mirrored stack |
| `Brackets.ForwardFrom` | scripts/cpplint.py:1610-1616 | the same the other way round |
| `Brackets.ScansAreInverse` | scripts/cpplint.py:1463-1619 | forward from an opening bracket the plain matcher succeeds at a place if and only if backward from the closing bracket there it succeeds at the opening one |
| `Brackets.ExpressionsAreInverse` | scripts/cpplint.py:1463-1619 | the same of CloseExpression and ReverseCloseExpression, with everything they do about angle brackets, over any number of lines |
| `BracketGrammar.MatchIsNesting` | scripts/cpplint.py:1463-1504 | the place the plain matcher finds is the closing partner with well-nested text between, and every such place is found |
| `BracketGrammar.SkipNested` | scripts/cpplint.py:1398-1460 | wherever it stands, well-nested text leaves a scan as it was |
| `BracketGrammar.ReadNested` | scripts/cpplint.py:1398-1460 | a successful scan has read well-nested text up to the partner of the top of its stack |
| `BracketGrammar.LinesAreText` | scripts/cpplint.py:1495-1501 | the match over several lines is the match in their concatenation |
| `BracketGrammar.ExpressionIsNesting` | scripts/cpplint.py:1463-1504 | started on a bracket, CloseExpression finds the one place in the text of the lines that closes it with well-nested text between, and fails exactly when there is none |
| `AngleBrackets.MoveInAngles` | scripts/cpplint.py:1398-1457 | in a scan that began on <, every character is a step of a plain matcher, which never reaches what lies below |
| `AngleBrackets.AnglesEncloseNesting` | scripts/cpplint.py:1463-1504 | started on a < that is no shift and no operator, a scan that succeeds has found a >, over any number of lines, and the text between is well-nested |
| `AngleBrackets.FindsAngleWhen` | scripts/cpplint.py:1463-1504 | a scan that finds something, from wherever it started, finds a > if and only if the first character from there on that makes a difference is a < that is no shift and no operator |
| `AngleBrackets.OtherAnglesArePassedOver` | scripts/cpplint.py:1405-1413 | any other < is passed over |
| `AngleBrackets.OperatorNamesMislead` | scripts/cpplint.py:1411-1413 | an instance: from the < of operator<(a) the end of the parameters is found |
| `AngleBrackets.MoveInAnglesBackward` | scripts/cpplint.py:1525-1579 | the backward counterpart |
| `AngleBrackets.AnglesEncloseNestingBackward` | scripts/cpplint.py:1584-1619 | the same for a backward scan started on a > that belongs to no arrow, comparison or operator |
| `AngleBrackets.FindsAngleBackwardWhen` | scripts/cpplint.py:1584-1619 | the mirror image for a backward scan |
| `NestingState.Nesting.UpdatePreprocessor` | scripts/cpplint.py:2318-2372 | in place, #if saves the stack, the first #else saves it too and goes back, #endif takes up the first branch's; stray #else and #endif change nothing |
| `NestingState.ClassifyExactly` | scripts/cpplint.py:2338-2358 | a line is a directive exactly when it is a # and one of if, ifdef, ifndef, else, elif, endif as a whole word, with any whitespace before and between |
| `NestingState.DirectivesMean` | scripts/cpplint.py:2338-2372 | what each directive does to the stack and to the innermost checkpoint, and that a stray one does nothing |
| `NestingState.Nesting.Update` | scripts/cpplint.py:2375-2397 | the directive is applied before the line's own effect, which may depend on the whole file |
| `NestingState.Nesting.UpdateAll` | scripts/cpplint.py:2375-2397 | a run over all lines is the fold of the steps |
| `NestingState.DirectiveHolds` | scripts/cpplint.py:2339-2372 | every directive keeps the invariant that the first-branch stack is the current one or the one saved at the outermost #else passed |
| `NestingState.RunHolds` | scripts/cpplint.py:2318-2372 | in every state of every run, whatever the lines do to the stack, the first-branch stack is at hand, and the checkpoints of the start are untouched |
| `NestingState.ConditionalsAreTransparent` | scripts/cpplint.py:2318-2372 | when every conditional is closed the stack is the one from running first branches only, for any effect of any line, and the checkpoints are back to what they were |
| `NestingState.RunSaves` | scripts/cpplint.py:2339-2342 | the checkpoints hold the stacks before the #if lines still open |
| `NestingState.InnermostSaved` | scripts/cpplint.py:2353-2354 | the innermost checkpoint holds the stack before the innermost open #if |
| `NestingState.InnermostIsIf` | scripts/cpplint.py:2339-2342 | the innermost open #if is an earlier line, and an #if |
| `NestingState.BranchesStartAlike` | scripts/cpplint.py:2343-2354 | every #else and #elif line is scanned from the stack its #if line found |
| `MultiLineComments.FindNextMultiLineCommentStart` | scripts/cpplint.py:1230-1238 | the first line from there on that opens a comment it does not end |
| `MultiLineComments.FindNextMultiLineCommentEnd` | scripts/cpplint.py:1241-1247 | the first line from there on that ends in a comment end |
| `MultiLineComments.OpensExactly` | scripts/cpplint.py:1233-1235 | a line opens a comment exactly when it is the start mark, with only whitespace before it and no end mark after it |
| `MultiLineComments.ClosesExactly` | scripts/cpplint.py:1244 | a line closes a comment exactly when it ends in the end mark, up to whitespace |
| `MultiLineComments.FinishedComment` | scripts/cpplint.py:1258-1271 | of the lines up to the end of the next comment, exactly those of the comment are replaced |
| `MultiLineComments.RemoveMultiLineCommentsFromRange` | scripts/cpplint.py:1250-1255 | exactly the lines of the range are replaced |
| `MultiLineComments.RemoveNext` | scripts/cpplint.py:1262-1271 | removes exactly the next comment, or complains about the one without an end |
| `MultiLineComments.RemoveMultiLineComments` | scripts/cpplint.py:1258-1271 | in place, terminating: every line of a comment that ends is replaced, every other is kept; it complains exactly when the file ends inside a comment, with the line that opened it |
| `MultiLineComments.CoveredAfter` | scripts/cpplint.py:1258-1271 | afterwards exactly the lines of the unfinished comment are in a comment |
| `MultiLineComments.CleanedTwice` | scripts/cpplint.py:1258-1271 | a second run changes nothing and complains exactly when the first did |
| `MultiLineComments.NothingOpens` | scripts/cpplint.py:1258-1271 | without a complaint no line is left that opens a comment |
| `JsonContainer.JsonContainer.Set` | json_container/inc/leatherman/json_container/json_container.hpp:326-345 | the walk that creates keys in place yields the recursive set, and a failing one leaves the document as it was |
| `JsonContainer.JsonContainer.SetKey` | json_container/inc/leatherman/json_container/json_container.hpp:307-321 | setting one key is setting the path of that key |
| `JsonContainer.JsonContainer.GetValueInJson` | json_container/src/json_container.cc:338-355 | the recursive lookup, with its errors |
| `JsonContainer.LookupOne` | json_container/src/json_container.cc:306-323 | one key leads to the first member of that name, and to a key error when there is none |
| `JsonContainer.LookupConcat` | json_container/src/json_container.cc:338-349 | a path is followed step by step, and the first step that fails decides the error |
| `JsonContainer.LookupNothing` | json_container/src/json_container.cc:306-323 | the empty path leads to the root, and any step from something that is no object to a type error |
| `JsonContainer.KeysEndAtNul` | json_container/src/json_container.cc:217-224 | a key without a NUL is taken as it is, and any other up to its first NUL |
| `JsonContainer.JsonContainer.GetIndexed` | json_container/src/json_container.cc:325-355 | an element of the array at the path, a type error for anything else there, an index error beyond its end |
| `JsonContainer.JsonContainer.Includes` | json_container/src/json_container.cc:217-228 | holds exactly when the lookup does not throw |
| `JsonContainer.JsonContainer.GetIntWithDefault` | json_container/inc/leatherman/json_container/json_container.hpp:289-303 | the default stands in exactly for an entry missing from an object; other failures are those of the lookup |
| `JsonContainer.JsonContainer.Keys` | json_container/src/json_container.cc:190-203 | the member names in order with repetitions, none for anything but an object |
| `JsonContainer.WalkOn` | json_container/inc/leatherman/json_container/json_container.hpp:330-342 | every step of the walk keeps that what is still to be set is the original request, and that the document is untouched until a fresh object is entered |
| `JsonContainer.FreshNeverFails` | json_container/src/json_container.cc:357-362 | once a key has been created nothing further can fail |
| `JsonContainer.FailsWhenBlocked` | json_container/inc/leatherman/json_container/json_container.hpp:333-335 | set fails if and only if a proper prefix of the path leads to something that is not an object, and then with a key error |
| `JsonContainer.GetSet` | json_container/inc/leatherman/json_container/json_container.hpp:327-345 | after a successful set, the path and everything below it is the new value |
| `JsonContainer.SetFrames` | json_container/inc/leatherman/json_container/json_container.hpp:327-345 | every path that is neither a prefix nor an extension is looked up as before |
| `JsonContainer.SetFramesPlainly` | json_container/inc/leatherman/json_container/json_container.hpp:327-345 | for keys without NULs: every path that is neither a prefix nor an extension, by plain equality of keys, is looked up as before |
| `JsonContainer.SetKeepsOrder` | json_container/src/json_container.cc:357-362 | objects on the way keep their member names in order; a created key comes last |
| `JsonContainer.SetKeepsOrderPlainly` | json_container/src/json_container.cc:357-362 | for keys without NULs: the names stay, and a key that was not among them comes last |
| `JsonContainer.SetSet` | json_container/inc/leatherman/json_container/json_container.hpp:327-345 | setting twice is setting once |
| `JsonContainer.SetGet` | json_container/inc/leatherman/json_container/json_container.hpp:327-345 | setting what is there changes nothing |
| `JsonContainer.PutLaws` | json_container/src/json_container.cc:306-323 | exchanging the first member of a name is seen under that name only, even among repeated names |
| `JsonContainer.AddLaws` | json_container/src/json_container.cc:357-362 | adding a missing key is seen under that key only |
| `JsonContainer.GetInts` | json_container/src/json_container.cc:502-525 | the elements in order when all are 32-bit integers, none for null, a type error otherwise |
| `JsonContainer.IntsValue` | json_container/src/json_container.cc:630-639 | an array of exactly these integers in order |
| `UriParts.Uri.constructor` | util/src/uri.cc:6-58 | the fields are the slices of the text at the limits the searches find |
| `UriParts.Uri.ParseProtocol` | util/src/uri.cc:17-31 | a protocol is what precedes a first colon that starts `://` with something after it |
| `UriParts.Uri.SplitRest` | util/src/uri.cc:33-57 | host, port, path and query are the slices between those limits |
| `UriParts.Uri.Str` | util/src/uri.cc:60-74 | the printed form of the fields |
| `UriParts.PartsOfText` | util/src/uri.cc:14-57 | of any text, no part holds the character that would have ended it |
| `UriParts.TextIsItsParts` | util/src/uri.cc:6-58 | any text is its parts, with :// exactly when it begins with a colon-free scheme, :// and something more, and with a colon before the port or none at all |
| `UriParts.AllParts` | util/src/uri.cc:6-58 | an instance with all five parts |
| `UriParts.PrintParsed` | util/src/uri.cc:6-74 | printing what was parsed gives the text back if and only if it does not begin with a separator and its authority does not end in its only colon |
| `UriParts.SeparatorAndColonAreLost` | util/src/uri.cc:6-74 | two instances: a separator without a protocol and a colon without a port |
| `UriParts.ParsePrinted` | util/src/uri.cc:6-74 | parsing what was printed gives the components back if and only if they are canonical, a condition on the components alone |
| `UriParts.PrintedLayout` | util/src/uri.cc:6-58 | on the printed form of canonical components every search stops where the part ends |
| `UriParts.CutIsCanonical` | util/src/uri.cc:6-58 | what the parser produces is canonical whenever it prints back to the text |
| `ScopedResource.Scoped.Release` | util/inc/leatherman/util/scoped_resource.hpp:106-112 | the deleter runs exactly when it is set, and is then unset |
| `ScopedResource.Scoped.MoveFrom` | util/inc/leatherman/util/scoped_resource.hpp:56-75 | the old resource is released, the other's is taken over with its deleter, the other is left empty; also when moved into itself |
| `ScopedResource.Execute` | util/inc/leatherman/util/scoped_resource.hpp:37-112 | any sequence of operations on real holders ends in the state the state machine says, deletions in order |
| `ScopedResource.AcquireMeans` | util/inc/leatherman/util/scoped_resource.hpp:37-41 | a new holder owns its resource |
| `ScopedResource.ReleaseMeans` | util/inc/leatherman/util/scoped_resource.hpp:80-112 | release and destruction delete what the holder owns, once, and leave it with nothing |
| `ScopedResource.MoveAssignMeans` | util/inc/leatherman/util/scoped_resource.hpp:66-75 | a move assignment releases the target, which then owns what the source did; the source, and a holder moved into itself, owns nothing |
| `ScopedResource.MoveConstructMeans` | util/inc/leatherman/util/scoped_resource.hpp:56-59 | a move construction deletes nothing, and the new holder owns what the source did |
| `ScopedResource.StepConserves` | util/inc/leatherman/util/scoped_resource.hpp:56-112 | every operation keeps that each acquisition is owned by one holder or deleted once, never both |
| `ScopedResource.DeletedOnce` | util/inc/leatherman/util/scoped_resource.hpp:37-112 | over any sequence of operations each acquisition is deleted at most once, and exactly once when no holder holds anything |
| `ScopedEnv.Environment.Open` | util/src/scoped_env.cc:8-26 | the variable is set or cleared, and what it was is saved |
| `ScopedEnv.Environment.Restore` | util/src/scoped_env.cc:28-35 | the saved value is set again, or the variable cleared |
| `ScopedEnv.ClosedLookup` | util/src/scoped_env.cc:28-35 | whatever the order, a variable ends with what the scope on it that ends last had saved |
| `ScopedEnv.OpenedLookup` | util/src/scoped_env.cc:8-26 | while scopes are open a variable has what the last request on it asked for |
| `ScopedEnv.SavedValue` | util/src/scoped_env.cc:10-15 | a scope saves what the request before it on its variable asked for, or else the original value |
| `ScopedEnv.RestoresWhen` | util/src/scoped_env.cc:8-35 | the environment comes back if and only if, on every variable, the scope that ends last is the one opened first, or the request before it on that variable asked for the original value |
| `ScopedEnv.NestedScopesRestore` | util/src/scoped_env.cc:8-35 | scopes ended in reverse order restore the environment, even with repeated names |
| `ScopedEnv.DistinctScopesRestore` | util/src/scoped_env.cc:8-35 | with distinct names any order does |
| `ScopedEnv.RepeatedNamesInOrderDoNotRestore` | util/src/scoped_env.cc:8-35 | an instance: two scopes on LANG ended in the order they were opened leave the first one's value behind |
| `Download.TempFile.Open` | curl/src/client.cc:98-121 | a constructor that throws has closed the file it opened and removed it, since no destructor will |
| `Download.TempFile.Write` | curl/src/client.cc:131-140 | the file is closed, then moved over the target in one step or left in place |
| `Download.TempFile.WriteBody` | curl/src/client.cc:142-151 | the file is closed, then read back in full or not at all |
| `Download.TempFile.CloseFp` | curl/src/client.cc:153-156 | the file is closed and no longer held, so that cleaning up will not close it again |
| `Download.TempFile.Cleanup` | curl/src/client.cc:158-167 | a file still held is closed and the temporary file removed, unless removing fails |
| `Download.Perform` | curl/src/client.cc:264-301 | which step failed decides the exception; only an error status of 400 or more puts the download into the body of a wanted response; the target is touched by a successful move only |
| `Download.DownloadFileHelper` | curl/src/client.cc:257-302 | for every failure: the file is closed exactly once, the temporary file is gone unless removing it fails, every other file is as before, and the target is untouched or holds the whole download; an error status with a response leaves the target alone and puts the download in the body |
| `OptionSet.OptionSet.Count` | util/inc/leatherman/util/option_set.hpp:137-147 | terminates with the number of set bits, for every 32-bit value |
| `OptionSet.ClearLowest` | util/inc/leatherman/util/option_set.hpp:144 | `bits & (bits - 1)` has exactly one set bit less |
| `OptionSet.OneBit` | util/inc/leatherman/util/option_set.hpp:137-147 | one bit counts as one, and none as none |
| `OptionSet.CountLaws` | util/inc/leatherman/util/option_set.hpp:188-216 | count(a&b) + count(a\|b) == count(a) + count(b), and count(a^b) == count(a\|b) - count(a&b) |
| `OptionSet.With` | util/inc/leatherman/util/option_set.hpp:85-89 | an option is in the set afterwards if it was, or shares a bit with the one set; the count grows by the bits that were missing |
| `OptionSet.Without` | util/inc/leatherman/util/option_set.hpp:96-100 | the option is gone, and any other is there if it was with a bit that is not the option's; the count shrinks by the bits that were there |
| `OptionSet.Toggled` | util/inc/leatherman/util/option_set.hpp:127-131 | options apart from it are as before, and one made of its bits is there if some of them were not |
| `OptionSet.ToggledTwice` | util/inc/leatherman/util/option_set.hpp:127-131 | toggling twice undoes itself |
| `OptionSet.OptionSet.Set` | util/inc/leatherman/util/option_set.hpp:85-89 | the set is the one with the option |
| `OptionSet.OptionSet.Clear` | util/inc/leatherman/util/option_set.hpp:96-100 | the set is the one without the option |
| `OptionSet.OptionSet.Toggle` | util/inc/leatherman/util/option_set.hpp:127-131 | the set is the one with the option toggled |
| `OptionSet.OptionSet.ToggleAll` | util/inc/leatherman/util/option_set.hpp:116-120 | afterwards exactly the other bits are set |
| `OptionSet.ComplementCount` | util/inc/leatherman/util/option_set.hpp:116-120 | a value and its complement have 32 set bits between them |

## Left out

Stated weaker than the source, or on fewer inputs:

- UriParts.Uri.constructor: requires that the first `?` comes after any protocol separator and any start of a path; elsewhere the code builds strings from inverted iterator ranges.
- EnvironmentBlock.Each: requires a block that ends in two NULs, which Windows promises; the null pointer and the freeing of the block are not modelled.
- JsonContainer.JsonContainer.GetIntWithDefault: requires a non-empty path, since the code takes the last key of it unconditionally.
- AngleBrackets.AnglesEncloseNesting: what is found is described, but not when something is found; which `<` opens a template argument list is a heuristic by design.
- Brackets.DropAngles: the inner loops that pop angle brackets are a recursion on the stack as a value.
- Brackets.FindEndOfExpressionInLine: the stack is a value that is passed in and returned; that Python updates the caller's list is not captured, and no caller relies on it.
- PosixPipes.RwFromChild: no claim that the loop ends while a child keeps running, and that a write of something transfers at least one byte is assumed; the array of three pipes is spelled out as three parameters.
- OverlappedPipes.RwFromChild: the same, with the inner loop over immediate completions as a script of attempts.
- NestingState.ConditionalsAreTransparent: blocks are values, so deep and shallow copies of the stack are not told apart, and what a line does to the stack is any function of the file, the line number and the stack.
- Download.DownloadFileHelper: the temporary name is taken to be new, and the failure of closing a file is ignored as in the code.
- OptionSet.CountLaws: the enumeration's underlying type is taken to be an unsigned 32-bit integer.
- Execution.Execute: the two callbacks share no state, and do not change the string they are handed.

Not modelled:

- `execute` beyond its pipes: creating the child, environment and working directory, waiting for it, exit codes, killing it on a timeout, and the exceptions for a non-zero exit.
- The Windows build's trimming of carriage returns in `process_data`; the streaming theorems are about the other builds, and the overlapped loop is modelled up to the chunks it hands over.
- `ArgvToCommandLine` for a program name: the Microsoft rules for the first word of a command line differ, and the parser here is the one for arguments.
- Letter case beyond ASCII in environment names, and the widening of text to UTF-16.
- In cpplint: regular expressions and `strip` beyond ASCII whitespace, `previous_stack_top`, how a line changes the nesting stack, cleansing of strings and single-line comments, and every style check.
- In `JsonContainer`: parsing and printing of text, allocation, the pointer into the document (a path stands for it), error messages, and the getters and setters of the other value types, which have the same shape.
- In `uri`: anything of RFC 3986 that the code does not treat.
- In `scoped_env` and `scoped_resource`: resources whose deleter throws, and the order in which a `std::vector` destroys its elements.
- In `curl`: options, headers, proxies, and every other request.
- Logging, localization, and the thin wrappers over operating system interfaces: easy members only.
