// The POSIX select loop that shuttles bytes between the child and its three pipes.

module PosixPipes {
  import opened Buffers
  import opened Slices
  import opened Histories
  import opened Options
  import opened Streams

  // ----- The kernel, as a script of answers -----

  datatype Errno = Eintr | Epipe | OtherErrno

  /** What a read or a write on a ready descriptor meets. A read takes at most its buffer size from
      `available` (nothing available is end of file); a write places at most `room` bytes. */
  datatype Answer = Ready(available: string, room: Positive) | Error(errno: Errno)

  datatype Selected =
    | SelectFailed
    | SelectInterrupted
    | SelectIdle                                   // the 500 ms poll elapsed
    | SelectReady(answers: seq<Option<Answer>>)    // one entry per pipe, None when it is not ready

  /** One turn of the loop: the timeout flag as the loop tests it, and the result of select. */
  datatype Round = Round(timedOut: bool, select: Selected)

  function AnswerAt(round: Round, i: nat): Option<Answer> {
    if round.select.SelectReady? && i < |round.select.answers| then round.select.answers[i] else None
  }

  // ----- One pipe on its own: the reference for the loop -----

  /** A pipe as seen from outside: whether it is open, the bytes that have crossed it, and the bytes still
      to be written. */
  datatype Flow = Flow(open: bool, moved: string, left: string)

  /** An answer that makes the loop throw. */
  predicate Fatal(read: bool, allowUnread: bool, answer: Option<Answer>) {
    answer.Some? && answer.value.Error? && answer.value.errno != Eintr
    && !(allowUnread && !read && answer.value.errno == Epipe)
  }

  predicate Deadly(read: bool, allowUnread: bool, f: Flow, answer: Option<Answer>) {
    f.open && Fatal(read, allowUnread, answer)
  }

  function Advance(read: bool, allowUnread: bool, f: Flow, answer: Option<Answer>): Flow {
    if !f.open || answer.None? then f
    else match answer.value
      case Error(Epipe) => if allowUnread && !read then f.(open := false) else f
      case Error(_) => f
      case Ready(available, room) =>
        if read then
          var chunk := available[..Min(|available|, CHUNK)];
          if chunk == [] then f.(open := false) else f.(moved := f.moved + chunk)
        else
          var n := Min(room, |f.left|);
          if n == 0 then f.(open := false) else f.(moved := f.moved + f.left[..n], left := Erased(f.left, n))
  }

  /** Exactly these answers make the loop throw: any error but an interruption, which is retried, and but a
      broken pipe that is written to when unread input is allowed. */
  lemma FatalExactly(read: bool, allowUnread: bool, answer: Option<Answer>)
    ensures Fatal(read, allowUnread, answer) <==>
            answer == Some(Error(OtherErrno)) || (answer == Some(Error(Epipe)) && (read || !allowUnread))
  {
  }

  /** A pipe that is closed or not ready stays as it is, and so does one whose call failed, except that an
      allowed broken pipe closes the input. */
  lemma FailedCall(read: bool, allowUnread: bool, f: Flow, answer: Option<Answer>)
    requires !f.open || answer.None? || answer.value.Error?
    ensures Advance(read, allowUnread, f, answer) ==
            if f.open && answer == Some(Error(Epipe)) && !read && allowUnread then Flow(false, f.moved, f.left) else f
  {
  }

  /** A read appends what there is, at most 4096 bytes of it, and closes the pipe on end of file. */
  lemma ReadCall(allowUnread: bool, f: Flow, available: string, room: Positive)
    requires f.open
    ensures var n := if |available| < 4096 then |available| else 4096;
            Advance(true, allowUnread, f, Some(Ready(available, room))) ==
            Flow(available != [], f.moved + available[..n], f.left)
  {
    assert available == [] ==> f.moved + available[..0] == f.moved;
  }

  /** A write takes as much as there is room for off the front of what is left, and closes the pipe when
      nothing was left. */
  lemma WriteCall(allowUnread: bool, f: Flow, available: string, room: Positive)
    requires f.open
    ensures var g := Advance(false, allowUnread, f, Some(Ready(available, room)));
            && (g.open <==> f.left != [])
            && |g.left| == (if |f.left| < room then 0 else |f.left| - room)
            && g.moved + g.left == f.moved + f.left
  {
    ErasedRest(f.left, Min(room, |f.left|));
  }

  /** Pipe `i` after the first `k` rounds, disregarding every other pipe. */
  function Alone(read: bool, allowUnread: bool, f: Flow, i: nat, rounds: seq<Round>, k: nat): Flow
    requires k <= |rounds|
  {
    if k == 0 then f
    else Advance(read, allowUnread, Alone(read, allowUnread, f, i, rounds, k - 1), AnswerAt(rounds[k - 1], i))
  }

  /** The answers pipe `i` gets in the first `k` rounds, in order. */
  function AnswersFor(i: nat, rounds: seq<Round>, k: nat): History<Answer>
    requires k <= |rounds|
  {
    if k == 0 then Beginning
    else
      var before := AnswersFor(i, rounds, k - 1);
      match AnswerAt(rounds[k - 1], i)
      case None => before
      case Some(a) => Then(before, a)
  }

  function Replay(read: bool, allowUnread: bool, f: Flow, answers: History<Answer>): Flow {
    match answers
    case Beginning => f
    case Then(before, a) => Advance(read, allowUnread, Replay(read, allowUnread, f, before), Some(a))
  }

  /** Scheduling does not matter: only the answers a pipe gets, in order, decide what crosses it. */
  lemma {:induction false} AloneIsReplay(read: bool, allowUnread: bool, f: Flow, i: nat, rounds: seq<Round>, k: nat)
    requires k <= |rounds|
    ensures Alone(read, allowUnread, f, i, rounds, k) == Replay(read, allowUnread, f, AnswersFor(i, rounds, k))
  {
    if k > 0 {
      AloneIsReplay(read, allowUnread, f, i, rounds, k - 1);
    }
  }

  /** Input is conserved: what has been written followed by what is left is always the input. */
  lemma {:induction false} InputConserved(allowUnread: bool, f: Flow, i: nat, rounds: seq<Round>, k: nat)
    requires k <= |rounds|
    ensures var g := Alone(false, allowUnread, f, i, rounds, k); g.moved + g.left == f.moved + f.left
  {
    if k > 0 {
      InputConserved(allowUnread, f, i, rounds, k - 1);
      var g := Alone(false, allowUnread, f, i, rounds, k - 1);
      var h := Alone(false, allowUnread, f, i, rounds, k);
      if h.left != g.left {
        ErasedRest(g.left, |g.left| - |h.left|);
      }
    }
  }

  predicate BrokenAt(i: nat, round: Round) {
    AnswerAt(round, i) == Some(Error(Epipe))
  }

  /** Standard input closes only after all input is written, or on a broken pipe that the caller allows. */
  lemma {:induction false} InputClosesWhenWritten(allowUnread: bool, f: Flow, i: nat, rounds: seq<Round>, k: nat)
    requires k <= |rounds| && f.open
    ensures var g := Alone(false, allowUnread, f, i, rounds, k);
            !g.open ==> g.left == [] || (allowUnread && exists j :: 0 <= j < k && BrokenAt(i, rounds[j]))
  {
    if k > 0 {
      InputClosesWhenWritten(allowUnread, f, i, rounds, k - 1);
      var g := Alone(false, allowUnread, f, i, rounds, k - 1);
      assert g.open && AnswerAt(rounds[k - 1], i) == Some(Error(Epipe)) ==> BrokenAt(i, rounds[k - 1]);
    }
  }

  /** Output only grows, and a pipe that has closed takes nothing more. */
  lemma {:induction false} OutputGrows(read: bool, allowUnread: bool, f: Flow, i: nat, rounds: seq<Round>,
                                       j: nat, k: nat)
    requires j <= k <= |rounds|
    ensures var early, late := Alone(read, allowUnread, f, i, rounds, j), Alone(read, allowUnread, f, i, rounds, k);
            && early.moved <= late.moved
            && (!early.open ==> late == early)
    decreases k
  {
    if j < k {
      OutputGrows(read, allowUnread, f, i, rounds, j, k - 1);
    }
  }

  // ----- The program -----

  datatype Served = Continue | Stop | Throw

  /** A pipe to the child: descriptor (-1 when closed), buffer, direction and, for reads, the stream its
      callback feeds. `moved` is the kernel's record of every byte that has crossed the pipe. */
  class Pipe {
    var descriptor: int
    var buffer: string
    const read: bool
    const stream: Stream
    ghost var moved: string

    ghost predicate Valid()
      reads this, stream
    {
      && descriptor >= -1
      && (read ==> stream.Valid() && stream.text == moved)
    }

    /** Valid, and no line has been refused. */
    ghost predicate Live()
      reads this, stream
    {
      Valid() && !stream.Stopped()
    }

    ghost function State(): Flow
      reads this
    {
      Flow(descriptor != -1, moved, if read then [] else buffer)
    }

    /** Sized for the next read. */
    ghost predicate Prepared()
      reads this
    {
      read && descriptor != -1 ==> |buffer| == CHUNK
    }

    constructor Reader(descriptor: int, stream: Stream)
      requires stream.Valid() && stream.text == [] && descriptor >= -1
      ensures Valid() && read && this.stream == stream
      ensures State() == Flow(descriptor != -1, [], [])
    {
      this.descriptor, this.stream := descriptor, stream;
      buffer, read, moved := [], true, [];
    }

    constructor Writer(descriptor: int, input: string)
      requires descriptor >= -1
      ensures Live() && !read && fresh(stream)
      ensures State() == Flow(descriptor != -1, [], input)
    {
      this.descriptor, buffer, read, moved := descriptor, input, false, [];
      stream := new Stream(false, None);
    }

    /** The read system call. */
    method ReadCall(size: nat, answer: Answer) returns (count: int, data: string, errno: Errno)
      modifies this`moved
      ensures answer.Error? ==> count == -1 && errno == answer.errno && moved == old(moved)
      ensures answer.Ready? ==> count == Min(|answer.available|, size)
                                && data == answer.available[..count] && moved == old(moved) + data
    {
      match answer
      case Error(e) => count, data, errno := -1, [], e;
      case Ready(available, _) =>
        count := Min(|available|, size);
        data, errno := available[..count], OtherErrno;
        moved := moved + data;
    }

    /** The write system call. */
    method WriteCall(data: string, answer: Answer) returns (count: int, errno: Errno)
      modifies this`moved
      ensures answer.Error? ==> count == -1 && errno == answer.errno && moved == old(moved)
      ensures answer.Ready? ==> count == Min(answer.room, |data|) && moved == old(moved) + data[..count]
    {
      match answer
      case Error(e) => count, errno := -1, e;
      case Ready(_, room) =>
        count, errno := Min(room, |data|), OtherErrno;
        moved := moved + data[..count];
    }

    /** Enters the descriptor in the select set and sizes the buffer of a read. Answers the larger of `max`
        and the descriptor. */
    method Prepare(max: int) returns (newMax: int)
      requires Live() && max >= -1
      modifies this`buffer
      ensures Live() && Prepared() && State() == old(State())
      ensures newMax >= -1
      ensures newMax == -1 <==> max == -1 && !State().open
    {
      newMax := max;
      if descriptor == -1 {
        return;
      }
      if descriptor > newMax {
        newMax := descriptor;
      }
      if read {
        buffer := Resized(buffer, CHUNK);
      }
    }

    /** The body of the loop over the pipes: a closed pipe, or one without an answer, is skipped. */
    method Serve(ready: Option<Answer>, allowUnread: bool) returns (served: Served)
      requires Live() && Prepared()
      modifies this, stream
      ensures Valid()
      ensures State() == Advance(read, allowUnread, old(State()), ready)
      ensures served.Throw? <==> Deadly(read, allowUnread, old(State()), ready)
      ensures !served.Stop? ==> Live()
      ensures served.Stop? ==> read && stream.Stopped()
    {
      if descriptor == -1 || ready.None? {
        return Continue;
      }
      var answer := ready.value;
      var count: int, data: string, errno: Errno := 0, [], OtherErrno;
      if read {
        count, data, errno := ReadCall(|buffer|, answer);
      } else {
        count, errno := WriteCall(buffer, answer);
      }
      if count < 0 {
        if allowUnread && !read && errno == Epipe {
          descriptor := -1;
          return Continue;
        } else if errno == Eintr {
          return Continue;
        }
        return Throw;
      } else if count == 0 {
        assert moved == old(moved);
        descriptor := -1;
        return Continue;
      }
      if read {
        buffer := data + Erased(buffer, count);
        buffer := Resized(buffer, count);
        assert buffer == data;
        var more := stream.ProcessData(buffer);
        if !more {
          return Stop;
        }
      } else {
        buffer := Erased(buffer, count);
      }
      return Continue;
    }
  }

  datatype Outcome = Finished | Stopped | TimedOut | Failed | Running

  /** The array of three pipes, in the order the loop visits them. */
  ghost predicate Separate(out: Pipe, err: Pipe, inp: Pipe) {
    && out.read && err.read && !inp.read
    && out != err && out != inp && err != inp
    && out.stream != err.stream && out.stream != inp.stream && err.stream != inp.stream
  }

  /** The three pipes as seen from outside. */
  datatype Flows = Flows(out: Flow, err: Flow, inp: Flow)

  function AllAlone(f: Flows, allowUnread: bool, rounds: seq<Round>, k: nat): Flows
    requires k <= |rounds|
  {
    Flows(Alone(true, allowUnread, f.out, 0, rounds, k), Alone(true, allowUnread, f.err, 1, rounds, k),
          Alone(false, allowUnread, f.inp, 2, rounds, k))
  }

  /** None of the first n pipes gets an answer in this round that makes the loop throw. */
  predicate NoneDeadly(f: Flows, allowUnread: bool, round: Round, n: nat) {
    && !(n > 0 && Deadly(true, allowUnread, f.out, AnswerAt(round, 0)))
    && !(n > 1 && Deadly(true, allowUnread, f.err, AnswerAt(round, 1)))
    && !(n > 2 && Deadly(false, allowUnread, f.inp, AnswerAt(round, 2)))
  }

  /** The loop goes through this round: no timeout, some pipe open, and nothing fails. */
  predicate Quiet(f: Flows, allowUnread: bool, round: Round) {
    && !round.timedOut && (f.out.open || f.err.open || f.inp.open) && !round.select.SelectFailed?
    && NoneDeadly(f, allowUnread, round, 3)
  }

  /** The loop goes through all of the first k rounds, apart from what the callbacks say. */
  predicate AllQuiet(f: Flows, allowUnread: bool, rounds: seq<Round>, k: nat)
    requires k <= |rounds|
  {
    k == 0 || (AllQuiet(f, allowUnread, rounds, k - 1)
               && Quiet(AllAlone(f, allowUnread, rounds, k - 1), allowUnread, rounds[k - 1]))
  }

  /** A round that starts with the pipes like this ends the loop like this, with this many pipes served. */
  predicate Ends(f: Flows, allowUnread: bool, round: Round, outcome: Outcome, served: nat) {
    var goes := !round.timedOut && (f.out.open || f.err.open || f.inp.open);
    match outcome
    case TimedOut => served == 0 && round.timedOut
    case Finished => served == 0 && !round.timedOut && !goes
    case Stopped => 1 <= served <= 2 && goes && !round.select.SelectFailed? && NoneDeadly(f, allowUnread, round, served)
    case Failed => goes && if round.select.SelectFailed? then served == 0
                           else served < 3 && NoneDeadly(f, allowUnread, round, served)
                                && !NoneDeadly(f, allowUnread, round, served + 1)
    case Running => false
  }

  /** The pipes after the first n of them have been served. */
  function Serving(f: Flows, allowUnread: bool, round: Round, n: nat): Flows {
    Flows(if n > 0 then Advance(true, allowUnread, f.out, AnswerAt(round, 0)) else f.out,
          if n > 1 then Advance(true, allowUnread, f.err, AnswerAt(round, 1)) else f.err,
          if n > 2 then Advance(false, allowUnread, f.inp, AnswerAt(round, 2)) else f.inp)
  }

  /** The pipes when the loop is in round k, having served `served` of them. */
  function After(f: Flows, allowUnread: bool, rounds: seq<Round>, k: nat, served: nat): Flows
    requires k <= |rounds|
  {
    var g := AllAlone(f, allowUnread, rounds, k);
    if k == |rounds| then g else Serving(g, allowUnread, rounds[k], served)
  }

  /** The rounds that pipe i has taken part in by then. */
  function RoundsSeen(i: nat, rounds: seq<Round>, k: nat, served: nat): (n: nat)
    requires k <= |rounds|
    ensures n <= |rounds|
  {
    if k < |rounds| && i < served then k + 1 else k
  }

  /** Scheduling does not matter to the loop: what has crossed each pipe, whenever it ends, is decided by
      the answers to that pipe alone, in order. */
  lemma AfterIsReplay(f: Flows, allowUnread: bool, rounds: seq<Round>, k: nat, served: nat)
    requires k <= |rounds|
    ensures After(f, allowUnread, rounds, k, served) == Flows(
              Replay(true, allowUnread, f.out, AnswersFor(0, rounds, RoundsSeen(0, rounds, k, served))),
              Replay(true, allowUnread, f.err, AnswersFor(1, rounds, RoundsSeen(1, rounds, k, served))),
              Replay(false, allowUnread, f.inp, AnswersFor(2, rounds, RoundsSeen(2, rounds, k, served))))
  {
    AloneIsReplay(true, allowUnread, f.out, 0, rounds, RoundsSeen(0, rounds, k, served));
    AloneIsReplay(true, allowUnread, f.err, 1, rounds, RoundsSeen(1, rounds, k, served));
    AloneIsReplay(false, allowUnread, f.inp, 2, rounds, RoundsSeen(2, rounds, k, served));
  }

  // ----- How a round ends -----

  /** The loop ends on a timeout or with every pipe closed exactly when a round begins like that, and both are
      looked at before anything else. */
  lemma EndsBeforeServing(f: Flows, allowUnread: bool, round: Round, served: nat)
    ensures Ends(f, allowUnread, round, TimedOut, served) <==> round.timedOut && served == 0
    ensures Ends(f, allowUnread, round, Finished, served) <==>
            !round.timedOut && !f.out.open && !f.err.open && !f.inp.open && served == 0
    ensures Quiet(f, allowUnread, round) ==> !round.timedOut && (f.out.open || f.err.open || f.inp.open)
    ensures Ends(f, allowUnread, round, Failed, served) || Ends(f, allowUnread, round, Stopped, served) ==>
            !round.timedOut && (f.out.open || f.err.open || f.inp.open)
  {
  }

  /** It fails exactly when select does, or when a pipe gets a fatal answer that those before it did not get;
      output is served before error output, and that before input. */
  lemma FailsExactly(f: Flows, allowUnread: bool, round: Round, served: nat)
    requires !round.timedOut && (f.out.open || f.err.open || f.inp.open)
    ensures var out := f.out.open && Fatal(true, allowUnread, AnswerAt(round, 0));
            var err := f.err.open && Fatal(true, allowUnread, AnswerAt(round, 1));
            var inp := f.inp.open && Fatal(false, allowUnread, AnswerAt(round, 2));
            && (Quiet(f, allowUnread, round) <==> !round.select.SelectFailed? && !out && !err && !inp)
            && (Ends(f, allowUnread, round, Failed, served) <==>
                  if round.select.SelectFailed? then served == 0
                  else (out && served == 0) || (!out && err && served == 1) || (!out && !err && inp && served == 2))
            && (Ends(f, allowUnread, round, Stopped, served) <==>
                  !round.select.SelectFailed? && !out && ((served == 1) || (served == 2 && !err)))
  {
  }

  /** Serving the pipes one after the other gives each its own answer and leaves the others alone. */
  lemma ServedInOrder(f: Flows, allowUnread: bool, round: Round)
    ensures Serving(f, allowUnread, round, 0) == f
    ensures var g := Serving(f, allowUnread, round, 1);
            && g == f.(out := Advance(true, allowUnread, f.out, AnswerAt(round, 0)))
            && Serving(f, allowUnread, round, 2) == g.(err := Advance(true, allowUnread, f.err, AnswerAt(round, 1)))
    ensures Serving(f, allowUnread, round, 3) ==
            Serving(f, allowUnread, round, 2).(inp := Advance(false, allowUnread, f.inp, AnswerAt(round, 2)))
    ensures match round.select
            case SelectReady(answers) => forall i :: 0 <= i < |answers| ==> AnswerAt(round, i) == answers[i]
            case _ => forall i :: AnswerAt(round, i) == None
  {
  }

  /** A run is made of its rounds, each of which serves all three pipes, and goes through them while they are
      quiet. */
  lemma RoundByRound(f: Flows, allowUnread: bool, rounds: seq<Round>, k: nat)
    requires k < |rounds|
    ensures AllAlone(f, allowUnread, rounds, 0) == f
    ensures AllAlone(f, allowUnread, rounds, k + 1) ==
            Serving(AllAlone(f, allowUnread, rounds, k), allowUnread, rounds[k], 3)
    ensures AllQuiet(f, allowUnread, rounds, 0)
    ensures AllQuiet(f, allowUnread, rounds, k + 1) <==>
            AllQuiet(f, allowUnread, rounds, k) && Quiet(AllAlone(f, allowUnread, rounds, k), allowUnread, rounds[k])
  {
  }

  // ----- Interruptions -----

  /** The answer with an interrupted call taken for a pipe that is not ready. */
  function CalmAnswer(answer: Option<Answer>): Option<Answer> {
    if answer == Some(Error(Eintr)) then None else answer
  }

  /** The round without interruptions. */
  function Calm(round: Round): Round {
    match round.select
    case SelectInterrupted => round.(select := SelectIdle)
    case SelectReady(answers) =>
      round.(select := SelectReady(seq(|answers|, i requires 0 <= i < |answers| => CalmAnswer(answers[i]))))
    case _ => round
  }

  function AllCalm(rounds: seq<Round>): (calm: seq<Round>)
    ensures |calm| == |rounds|
  {
    seq(|rounds|, i requires 0 <= i < |rounds| => Calm(rounds[i]))
  }

  lemma CalmAnswers(read: bool, allowUnread: bool, f: Flow, round: Round, i: nat)
    ensures Advance(read, allowUnread, f, AnswerAt(Calm(round), i)) == Advance(read, allowUnread, f, AnswerAt(round, i))
    ensures Fatal(read, allowUnread, AnswerAt(Calm(round), i)) <==> Fatal(read, allowUnread, AnswerAt(round, i))
  {
    assert AnswerAt(Calm(round), i) == CalmAnswer(AnswerAt(round, i));
  }

  lemma {:induction false} CalmAlone(read: bool, allowUnread: bool, f: Flow, i: nat, rounds: seq<Round>, k: nat)
    requires k <= |rounds|
    ensures Alone(read, allowUnread, f, i, AllCalm(rounds), k) == Alone(read, allowUnread, f, i, rounds, k)
  {
    if k > 0 {
      CalmAlone(read, allowUnread, f, i, rounds, k - 1);
      CalmAnswers(read, allowUnread, Alone(read, allowUnread, f, i, rounds, k - 1), rounds[k - 1], i);
    }
  }

  lemma CalmRound(f: Flows, allowUnread: bool, round: Round, outcome: Outcome, served: nat)
    ensures Quiet(f, allowUnread, Calm(round)) <==> Quiet(f, allowUnread, round)
    ensures Ends(f, allowUnread, Calm(round), outcome, served) <==> Ends(f, allowUnread, round, outcome, served)
    ensures Serving(f, allowUnread, Calm(round), served) == Serving(f, allowUnread, round, served)
  {
    CalmAnswers(true, allowUnread, f.out, round, 0);
    CalmAnswers(true, allowUnread, f.err, round, 1);
    CalmAnswers(false, allowUnread, f.inp, round, 2);
  }

  lemma {:induction false} CalmQuiet(f: Flows, allowUnread: bool, rounds: seq<Round>, k: nat)
    requires k <= |rounds|
    ensures AllQuiet(f, allowUnread, AllCalm(rounds), k) <==> AllQuiet(f, allowUnread, rounds, k)
    ensures AllAlone(f, allowUnread, AllCalm(rounds), k) == AllAlone(f, allowUnread, rounds, k)
  {
    CalmAlone(true, allowUnread, f.out, 0, rounds, k);
    CalmAlone(true, allowUnread, f.err, 1, rounds, k);
    CalmAlone(false, allowUnread, f.inp, 2, rounds, k);
    if k > 0 {
      CalmQuiet(f, allowUnread, rounds, k - 1);
      CalmRound(AllAlone(f, allowUnread, rounds, k - 1), allowUnread, rounds[k - 1], Running, 0);
    }
  }

  /** Interruptions are invisible: without them the loop goes through the same rounds, ends the same way, and
      leaves the pipes the same. */
  lemma InterruptionsAreInvisible(f: Flows, allowUnread: bool, rounds: seq<Round>, k: nat, outcome: Outcome,
                                  served: nat)
    requires k <= |rounds|
    ensures AllQuiet(f, allowUnread, AllCalm(rounds), k) <==> AllQuiet(f, allowUnread, rounds, k)
    ensures k < |rounds| ==>
              (Ends(AllAlone(f, allowUnread, AllCalm(rounds), k), allowUnread, AllCalm(rounds)[k], outcome, served) <==>
               Ends(AllAlone(f, allowUnread, rounds, k), allowUnread, rounds[k], outcome, served))
    ensures After(f, allowUnread, AllCalm(rounds), k, served) == After(f, allowUnread, rounds, k, served)
  {
    CalmQuiet(f, allowUnread, rounds, k);
    if k < |rounds| {
      CalmRound(AllAlone(f, allowUnread, rounds, k), allowUnread, rounds[k], outcome, served);
    }
  }

  ghost function Current(out: Pipe, err: Pipe, inp: Pipe): Flows
    reads out, err, inp
  {
    Flows(out.State(), err.State(), inp.State())
  }

  /** A refused line stops the loop at once, and nothing else does. */
  ghost predicate StoppedBy(out: Pipe, err: Pipe, outcome: Outcome, served: nat)
    reads out, err, out.stream, err.stream
  {
    if outcome.Stopped? then
      if served == 1 then out.stream.Stopped() && err.Live() else out.Live() && err.stream.Stopped()
    else out.Live() && err.Live()
  }

  /** Moves bytes between the child and the pipes for as long as `rounds` lasts. Reports how it ended, the
      round it ended in, and how many pipes it had served in that round. */
  method RwFromChild(out: Pipe, err: Pipe, inp: Pipe, rounds: seq<Round>, allowUnread: bool)
    returns (outcome: Outcome, k: nat, served: nat)
    requires Separate(out, err, inp) && out.Live() && err.Live() && inp.Live()
    modifies out, err, inp, out.stream, err.stream, inp.stream
    ensures out.Valid() && err.Valid() && inp.Valid() && StoppedBy(out, err, outcome, served)
    ensures k <= |rounds| && AllQuiet(old(Current(out, err, inp)), allowUnread, rounds, k)
    ensures Current(out, err, inp) == After(old(Current(out, err, inp)), allowUnread, rounds, k, served)
    ensures if outcome.Running? then k == |rounds|
            else k < |rounds| && Ends(AllAlone(old(Current(out, err, inp)), allowUnread, rounds, k), allowUnread,
                                      rounds[k], outcome, served)
  {
    k, served := 0, 0;
    ghost var was := Current(out, err, inp);
    while k < |rounds| && !rounds[k].timedOut
      invariant k <= |rounds|
      invariant out.Live() && err.Live() && inp.Live()
      invariant Current(out, err, inp) == AllAlone(was, allowUnread, rounds, k)
      invariant AllQuiet(was, allowUnread, rounds, k)
      decreases |rounds| - k
    {
      outcome, served := RunRound(out, err, inp, rounds[k], allowUnread);
      if !outcome.Running? {
        return;
      }
      k := k + 1;
    }
    return if k < |rounds| then TimedOut else Running, k, 0;
  }

  /** One turn of the loop, after the timeout flag has been tested. Answers Running to go on. */
  method RunRound(out: Pipe, err: Pipe, inp: Pipe, round: Round, allowUnread: bool)
    returns (outcome: Outcome, served: nat)
    requires Separate(out, err, inp) && out.Live() && err.Live() && inp.Live() && !round.timedOut
    modifies out, err, inp, out.stream, err.stream, inp.stream
    ensures out.Valid() && err.Valid() && inp.Valid() && StoppedBy(out, err, outcome, served)
    ensures Current(out, err, inp) == Serving(old(Current(out, err, inp)), allowUnread, round, served)
    ensures if outcome.Running? then served == 3 && inp.Live() && Quiet(old(Current(out, err, inp)), allowUnread, round)
            else Ends(old(Current(out, err, inp)), allowUnread, round, outcome, served)
  {
    var max := PrepareAll(out, err, inp);
    if max == -1 {
      return Finished, 0;
    }
    if round.select.SelectFailed? {
      return Failed, 0;
    }
    outcome, served := ServeAll(out, err, inp, round, allowUnread);
  }

  /** Sets up the descriptors and buffers to select upon. Answers -1 when every pipe is closed. */
  method PrepareAll(out: Pipe, err: Pipe, inp: Pipe) returns (max: int)
    requires Separate(out, err, inp) && out.Live() && err.Live() && inp.Live()
    modifies out`buffer, err`buffer, inp`buffer
    ensures out.Live() && err.Live() && inp.Live()
    ensures out.Prepared() && err.Prepared() && inp.Prepared()
    ensures out.State() == old(out.State()) && err.State() == old(err.State()) && inp.State() == old(inp.State())
    ensures max == -1 <==> !out.State().open && !err.State().open && !inp.State().open
  {
    max := -1;
    max := out.Prepare(max);
    max := err.Prepare(max);
    max := inp.Prepare(max);
  }

  /** Serves every pipe that select reported as ready, in order. */
  method ServeAll(out: Pipe, err: Pipe, inp: Pipe, round: Round, allowUnread: bool)
    returns (outcome: Outcome, served: nat)
    requires Separate(out, err, inp) && out.Live() && err.Live() && inp.Live()
    requires out.Prepared() && err.Prepared() && inp.Prepared()
    modifies out, err, inp, out.stream, err.stream, inp.stream
    ensures out.Valid() && err.Valid() && inp.Valid() && StoppedBy(out, err, outcome, served)
    ensures Current(out, err, inp) == Serving(old(Current(out, err, inp)), allowUnread, round, served)
    ensures NoneDeadly(old(Current(out, err, inp)), allowUnread, round, served)
    ensures match outcome
            case Running => served == 3 && inp.Live()
            case Stopped => 1 <= served <= 2
            case Failed => served < 3 && !NoneDeadly(old(Current(out, err, inp)), allowUnread, round, served + 1)
            case _ => false
  {
    var result := out.Serve(AnswerAt(round, 0), allowUnread);
    if result != Continue {
      return if result == Stop then Stopped else Failed, if result == Stop then 1 else 0;
    }
    result := err.Serve(AnswerAt(round, 1), allowUnread);
    if result != Continue {
      return if result == Stop then Stopped else Failed, if result == Stop then 2 else 1;
    }
    result := inp.Serve(AnswerAt(round, 2), allowUnread);
    if result == Throw {
      return Failed, 2;
    }
    return Running, 3;
  }
}
