// The Windows loop over overlapped (asynchronous) pipe operations.

module OverlappedPipes {
  import opened Buffers
  import opened Slices
  import opened Histories
  import opened Options
  import P = PosixPipes

  // ----- The kernel, as a script of answers -----

  /** The result of an operation. A completed read takes at most the buffer size from `available`, nothing
      available meaning end of file; a completed write places at most `room` bytes. */
  datatype Result = Completed(available: string, room: Positive) | BrokenPipe | OtherError

  datatype Issued = Now(result: Result) | Pending

  /** One pass of the inner loop: whether the timer has fired, and what starting the operation answers. */
  datatype Attempt = Attempt(timerFired: bool, issued: Issued)

  /** One turn of the outer loop: the attempts each pipe can make, the signalled wait handle, and the result
      of the operation whose event was signalled. */
  datatype Turn = Turn(inp: seq<Attempt>, out: seq<Attempt>, err: seq<Attempt>, signalled: nat, result: Result)

  datatype Outcome = GoOn | Finished | Stopped | TimedOut | Failed | Running

  const TIMER: nat := 0

  // ----- Newline conversion -----

  function WithoutCrs(s: string): string {
    if s == [] then [] else (if s[0] == '\r' then [] else [s[0]]) + WithoutCrs(s[1..])
  }

  function Converted(convert: bool, s: string): string {
    if convert then WithoutCrs(s) else s
  }

  /** Dropping carriage returns chunk by chunk drops them from the whole. */
  lemma {:induction false} ConvertedConcat(convert: bool, a: string, b: string)
    ensures Converted(convert, a + b) == Converted(convert, a) + Converted(convert, b)
    decreases a
  {
    if convert {
      if a == [] {
        assert a + b == b;
      } else {
        assert (a + b)[1..] == a[1..] + b;
        ConvertedConcat(convert, a[1..], b);
      }
    }
  }

  /** Converting drops every carriage return and nothing else: with `ConvertedConcat`, this settles any text. */
  lemma {:induction false} NoCrIsLeft(s: string)
    ensures '\r' !in Converted(true, s)
  {
    if s != [] {
      NoCrIsLeft(s[1..]);
    }
  }

  lemma {:induction false} OthersAreKept(s: string)
    requires '\r' !in s
    ensures Converted(true, s) == s
  {
    if s != [] {
      OthersAreKept(s[1..]);
      assert s == [s[0]] + s[1..];
    }
  }

  lemma OnlyCrsAreDropped(convert: bool, s: string)
    ensures Converted(convert, "\r") == if convert then [] else "\r"
    ensures Converted(false, s) == s
  {
    assert "\r"[1..] == [];
  }

  function Concat(chunks: seq<string>): string {
    if chunks == [] then [] else Concat(chunks[..|chunks| - 1]) + chunks[|chunks| - 1]
  }

  lemma {:induction false} ConcatIsConcat(a: seq<string>, b: seq<string>, chunk: string)
    ensures Concat(a + b) == Concat(a) + Concat(b) && Concat([chunk]) == chunk
    decreases b
  {
    assert [chunk][..0] == [];
    if b == [] {
      assert a + b == a;
    } else {
      var last := |b| - 1;
      ConcatIsConcat(a, b[..last], chunk);
      assert (a + b)[..|a| + last] == a + b[..last];
    }
  }

  // ----- One pipe on its own: the reference for the loop -----

  /** What a result does to an open pipe, whether it came at once or later. */
  function Next(read: bool, f: P.Flow, result: Result): P.Flow {
    if !f.open then f
    else match result
      case OtherError => f
      case BrokenPipe => f.(open := false)
      case Completed(available, room) =>
        var n := if read then Min(|available|, CHUNK) else Min(room, |f.left|);
        if n == 0 then f.(open := false)
        else if read then f.(moved := f.moved + available[..n])
        else f.(moved := f.moved + f.left[..n], left := Erased(f.left, n))
  }

  /** A broken pipe is closed and anything else that fails leaves the pipe as it is; so does everything once it is
      closed. */
  lemma FailedResult(read: bool, f: P.Flow, result: Result)
    requires !f.open || !result.Completed?
    ensures Next(read, f, result) == if result.BrokenPipe? then P.Flow(false, f.moved, f.left) else f
  {
  }

  /** A completed read appends what there is, at most 4096 bytes of it, and closes the pipe on end of file. */
  lemma ReadResult(f: P.Flow, available: string, room: Positive)
    requires f.open
    ensures var n := if |available| < 4096 then |available| else 4096;
            Next(true, f, Completed(available, room)) == P.Flow(available != [], f.moved + available[..n], f.left)
  {
    assert available == [] ==> f.moved + available[..0] == f.moved;
  }

  /** A completed write takes as much as there is room for off the front of what is left, and closes the pipe when
      nothing was left. */
  lemma WriteResult(f: P.Flow, available: string, room: Positive)
    requires f.open
    ensures var g := Next(false, f, Completed(available, room));
            && (g.open <==> f.left != [])
            && |g.left| == (if |f.left| < room then 0 else |f.left| - room)
            && g.moved + g.left == f.moved + f.left
  {
    ErasedRest(f.left, Min(room, |f.left|));
  }

  function Replay(read: bool, f: P.Flow, results: History<Result>): P.Flow {
    match results
    case Beginning => f
    case Then(before, result) => Next(read, Replay(read, f, before), result)
  }

  /** The POSIX answer that this result corresponds to. A pipe that the child has closed is the end of file to
      its reader, and EPIPE to its writer. */
  function AsAnswer(read: bool, result: Result): P.Answer {
    match result
    case Completed(available, room) => P.Ready(available, room)
    case BrokenPipe => if read then P.Ready([], 1) else P.Error(P.Epipe)
    case OtherError => P.Error(P.OtherErrno)
  }

  function AsAnswers(read: bool, results: History<Result>): History<P.Answer> {
    match results
    case Beginning => Beginning
    case Then(before, result) => Then(AsAnswers(read, before), AsAnswer(read, result))
  }

  /** Some broken pipe is met while the pipe is open. */
  predicate Breaks(read: bool, f: P.Flow, results: History<Result>) {
    match results
    case Beginning => false
    case Then(before, result) => Breaks(read, f, before) || (Replay(read, f, before).open && result == BrokenPipe)
  }

  /** Both platforms do the same to a pipe for the same results: the same bytes cross it, and it is closed at
      the same point. The one case apart is a broken input pipe when unread input is not allowed. */
  lemma {:induction false} LoopsAgree(read: bool, allowUnread: bool, f: P.Flow, results: History<Result>)
    requires read || allowUnread || !Breaks(read, f, results)
    ensures Replay(read, f, results) == P.Replay(read, allowUnread, f, AsAnswers(read, results))
  {
    if results.Then? {
      LoopsAgree(read, allowUnread, f, results.before);
    }
  }

  predicate Earlier(a: History<Result>, b: History<Result>) {
    a == b || (b.Then? && Earlier(a, b.before))
  }

  /** One history is earlier than another when it is left of it after some of the latest steps. */
  lemma EarlierExactly(a: History<Result>, b: History<Result>, last: Result)
    ensures Earlier(a, Beginning) <==> a == Beginning
    ensures Earlier(a, Then(b, last)) <==> a == Then(b, last) || Earlier(a, b)
  {
  }

  /** In that case the POSIX loop throws at the break, where the overlapped loop closes the pipe. */
  lemma {:induction false} BreaksThrowOnPosix(f: P.Flow, results: History<Result>) returns (before: History<Result>)
    requires Breaks(false, f, results)
    ensures Earlier(Then(before, BrokenPipe), results) && !Replay(false, f, Then(before, BrokenPipe)).open
    ensures P.Deadly(false, false, P.Replay(false, false, f, AsAnswers(false, before)),
                     Some(AsAnswer(false, BrokenPipe)))
  {
    if Breaks(false, f, results.before) {
      before := BreaksThrowOnPosix(f, results.before);
    } else {
      before := results.before;
      LoopsAgree(false, false, f, before);
    }
  }

  // ----- What a pipe has done -----

  /** The operations a pipe has issued, the results of pending ones it has collected, and all the results
      it had in order. */
  datatype Tally = Tally(calls: nat, collected: nat, results: History<Result>)

  function AfterIssue(t: Tally, issued: Issued): Tally {
    Tally(t.calls + 1, t.collected, if issued.Now? then Then(t.results, issued.result) else t.results)
  }

  function AfterCollect(t: Tally, result: Result): Tally {
    Tally(t.calls, t.collected + 1, Then(t.results, result))
  }

  /** After the first k of these attempts. */
  function AfterAttempts(t: Tally, attempts: seq<Attempt>, k: nat): (r: Tally)
    requires k <= |attempts|
    ensures r.calls == t.calls + k && r.collected == t.collected
  {
    if k == 0 then t else AfterIssue(AfterAttempts(t, attempts, k - 1), attempts[k - 1].issued)
  }

  /** In the first k of these attempts the timer has not fired, and no operation has failed. */
  predicate Smooth(attempts: seq<Attempt>, k: nat, timeout: nat)
    requires k <= |attempts|
  {
    k == 0 || (Smooth(attempts, k - 1, timeout)
               && !(timeout > 0 && attempts[k - 1].timerFired) && attempts[k - 1].issued != Now(OtherError))
  }

  lemma {:induction false} SmoothExactly(attempts: seq<Attempt>, k: nat, timeout: nat)
    requires k <= |attempts|
    ensures Smooth(attempts, k, timeout) <==>
            forall i :: 0 <= i < k ==> !(timeout > 0 && attempts[i].timerFired) && attempts[i].issued != Now(OtherError)
  {
    if k > 0 {
      SmoothExactly(attempts, k - 1, timeout);
    }
  }

  /** The pipe has used the first of these attempts. */
  ghost predicate Took(before: Tally, after: Tally, attempts: seq<Attempt>) {
    && before.calls <= after.calls <= before.calls + |attempts|
    && after == AfterAttempts(before, attempts, after.calls - before.calls)
  }

  // ----- What the three pipes have done -----

  datatype Side = Inp | Out | Err

  datatype Tallies = Tallies(inp: Tally, out: Tally, err: Tally)

  /** One pipe, given by its side, has collected this result. */
  function Collecting(t: Tallies, side: Side, result: Result): Tallies {
    match side
    case Inp => t.(inp := AfterCollect(t.inp, result))
    case Out => t.(out := AfterCollect(t.out, result))
    case Err => t.(err := AfterCollect(t.err, result))
  }

  ghost predicate AllTook(was: Tallies, now: Tallies, turn: Turn) {
    Took(was.inp, now.inp, turn.inp) && Took(was.out, now.out, turn.out) && Took(was.err, now.err, turn.err)
  }

  ghost predicate CallsFit(was: Tallies, now: Tallies, turn: Turn) {
    && was.inp.calls <= now.inp.calls <= was.inp.calls + |turn.inp|
    && was.out.calls <= now.out.calls <= was.out.calls + |turn.out|
    && was.err.calls <= now.err.calls <= was.err.calls + |turn.err|
  }

  /** Between the phases of a turn: after the operations that were issued in it. */
  ghost function Mid(was: Tallies, now: Tallies, turn: Turn): Tallies
    requires CallsFit(was, now, turn)
  {
    Tallies(AfterAttempts(was.inp, turn.inp, now.inp.calls - was.inp.calls),
            AfterAttempts(was.out, turn.out, now.out.calls - was.out.calls),
            AfterAttempts(was.err, turn.err, now.err.calls - was.err.calls))
  }

  lemma MidIs(was: Tallies, mid: Tallies, now: Tallies, turn: Turn)
    requires AllTook(was, mid, turn)
    requires now.inp.calls == mid.inp.calls && now.out.calls == mid.out.calls && now.err.calls == mid.err.calls
    ensures CallsFit(was, now, turn) && Mid(was, now, turn) == mid
  {
  }

  /** In the first phase no timer fired and nothing failed on any pipe. */
  ghost predicate AllSmooth(was: Tallies, now: Tallies, turn: Turn, timeout: nat)
    requires CallsFit(was, now, turn)
  {
    && Smooth(turn.inp, now.inp.calls - was.inp.calls, timeout)
    && Smooth(turn.out, now.out.calls - was.out.calls, timeout)
    && Smooth(turn.err, now.err.calls - was.err.calls, timeout)
  }

  // ----- How a turn ends -----

  /** Which pipes are open. Once they are settled, these are the ones waited for. */
  datatype Opens = Opens(inp: bool, out: bool, err: bool)

  function One(b: bool): nat {
    if b then 1 else 0
  }

  function Count(o: Opens): nat {
    One(o.inp) + One(o.out) + One(o.err)
  }

  /** The k-th open pipe, None when there are no more. */
  function Nth(o: Opens, k: nat): Option<Side> {
    if o.inp && k == 0 then Some(Inp)
    else if o.out && k == One(o.inp) then Some(Out)
    else if o.err && k == One(o.inp) + One(o.out) then Some(Err)
    else None
  }

  /** The second phase of a turn ends like this when it starts with these pipes open. Nothing else is left to the
      pipes than whether a callback refuses. */
  predicate Handles(o: Opens, mid: Tallies, now: Tallies, outcome: Outcome, turn: Turn, timeout: nat) {
    match Nth(o, turn.signalled)
    case Some(side) =>
      && now == Collecting(mid, side, turn.result)
      && if turn.result.OtherError? then outcome.Failed? else outcome.GoOn? || outcome.Stopped?
    case None =>
      && now == mid
      && outcome == if Count(o) == 0 then Finished
                    else if timeout > 0 && turn.signalled == Count(o) then TimedOut else Failed
  }

  /** The open pipes are waited for in the order input, output, error output. */
  lemma SidesInOrder(o: Opens, k: nat)
    ensures var sides := (if o.inp then [Inp] else []) + (if o.out then [Out] else []) + (if o.err then [Err] else []);
            Count(o) == |sides| && Nth(o, k) == if k < |sides| then Some(sides[k]) else None
  {
  }

  /** How the second phase ends: at once when no pipe is open; with a timeout when the timer is what was signalled,
      after the open pipes; with a failure when nothing that was waited for was signalled, or when the operation that
      was signalled had failed; and otherwise with the result of that operation collected. */
  lemma HandlesExactly(o: Opens, mid: Tallies, now: Tallies, outcome: Outcome, turn: Turn, timeout: nat)
    requires Handles(o, mid, now, outcome, turn, timeout)
    ensures outcome.Finished? <==> !o.inp && !o.out && !o.err
    ensures outcome.TimedOut? <==> Count(o) > 0 && timeout > 0 && turn.signalled == Count(o)
    ensures outcome.Failed? <==>
            if turn.signalled < Count(o) then turn.result == OtherError
            else Count(o) > 0 && !(timeout > 0 && turn.signalled == Count(o))
    ensures !outcome.Running?
    ensures turn.signalled >= Count(o) ==> now == mid
    ensures turn.signalled < Count(o) ==> Nth(o, turn.signalled).Some?
    ensures Nth(o, turn.signalled) == Some(Inp) ==>
              now == mid.(inp := Tally(mid.inp.calls, mid.inp.collected + 1, Then(mid.inp.results, turn.result)))
    ensures Nth(o, turn.signalled) == Some(Out) ==>
              now == mid.(out := Tally(mid.out.calls, mid.out.collected + 1, Then(mid.out.results, turn.result)))
    ensures Nth(o, turn.signalled) == Some(Err) ==>
              now == mid.(err := Tally(mid.err.calls, mid.err.collected + 1, Then(mid.err.results, turn.result)))
  {
    SidesInOrder(o, turn.signalled);
  }

  /** What a pipe was at the start. */
  datatype Shape = Shape(read: bool, start: P.Flow)

  datatype Shapes = Shapes(inp: Shape, out: Shape, err: Shape)

  function OpenBy(s: Shape, t: Tally): bool {
    Replay(s.read, s.start, t.results).open
  }

  function AllOpenBy(s: Shapes, t: Tallies): Opens {
    Opens(OpenBy(s.inp, t.inp), OpenBy(s.out, t.out), OpenBy(s.err, t.err))
  }

  /** The turn came to its second phase, and ended like this in it. */
  ghost predicate TurnHandled(s: Shapes, was: Tallies, now: Tallies, outcome: Outcome, turn: Turn, timeout: nat) {
    && CallsFit(was, now, turn) && AllSmooth(was, now, turn, timeout)
    && var mid := Mid(was, now, turn);
       Handles(AllOpenBy(s, mid), mid, now, outcome, turn, timeout)
  }

  /** A turn that came to its second phase was smooth for each pipe in its first, in which no timer fired and no
      operation failed; the second phase takes it from there. */
  lemma TurnHandledExactly(s: Shapes, was: Tallies, now: Tallies, outcome: Outcome, turn: Turn, timeout: nat)
    requires TurnHandled(s, was, now, outcome, turn, timeout)
    ensures 0 <= now.inp.calls - was.inp.calls <= |turn.inp| && Smooth(turn.inp, now.inp.calls - was.inp.calls, timeout)
    ensures 0 <= now.out.calls - was.out.calls <= |turn.out| && Smooth(turn.out, now.out.calls - was.out.calls, timeout)
    ensures 0 <= now.err.calls - was.err.calls <= |turn.err| && Smooth(turn.err, now.err.calls - was.err.calls, timeout)
    ensures var mid := Tallies(AfterAttempts(was.inp, turn.inp, now.inp.calls - was.inp.calls),
                               AfterAttempts(was.out, turn.out, now.out.calls - was.out.calls),
                               AfterAttempts(was.err, turn.err, now.err.calls - was.err.calls));
            Handles(AllOpenBy(s, mid), mid, now, outcome, turn, timeout)
  {
  }

  // ----- Pipes -----

  /** Why a pipe is closed. */
  datatype Cause = StillOpen | NeverOpened | Drained | Broke

  /** A pipe to the child. The ghost fields are the kernel's: the bytes that have crossed the pipe, the
      results its operations had in order, the buffer of the operation in flight, and why the pipe is closed. */
  class Pipe {
    var open: bool
    var pending: bool
    var buffer: string
    var chunks: seq<string>  // the calls made to the callback
    const read: bool
    const event: nat
    const convert: bool
    const callback: seq<string> -> bool
    const input: string
    const wasOpen: bool
    ghost var moved: string
    ghost var tally: Tally
    ghost var inFlight: Option<string>
    ghost var cause: Cause

    ghost function State(): P.Flow
      reads this
    {
      P.Flow(open, moved, if read then input else buffer)
    }

    ghost function Initial(): Shape {
      Shape(read, P.Flow(wasOpen, [], input))
    }

    /** What the results so far make of the pipe. */
    ghost function Replayed(): P.Flow
      reads this
    {
      Replay(read, P.Flow(wasOpen, [], input), tally.results)
    }

    /** The pipe is what its results make of it, however they came. Bytes are conserved, exactly the pending
        pipes have an operation in flight, and its buffer has not been touched since it was issued. */
    ghost predicate Valid()
      reads this
    {
      match cause
      case StillOpen => open && Conserves()
      case Drained => !open && !pending && Conserves() && (read || moved == input)
      case _ => !open && !pending && Conserves()
    }

    ghost predicate Conserves()
      reads this
    {
      && event != TIMER
      && State() == Replayed()
      && (pending && read ==> |buffer| == CHUNK)
      && inFlight == (if pending then Some(buffer) else None)
      && (if read then Concat(chunks) == Converted(convert, moved) else chunks == [] && moved + buffer == input)
    }

    ghost predicate Settled()
      reads this
    {
      open ==> pending
    }

    /** Settled, with an event of its own. */
    ghost predicate Waits()
      reads this
    {
      (open <==> pending) && event != TIMER
    }

    /** What holds of a pipe throughout: it is what its results make of it; it has handed over what it read,
        converted, and the input it has not written is still in its buffer; what is in flight is its buffer,
        untouched; and it closes when the child is done with it. */
    lemma Promises()
      requires Valid()
      ensures P.Flow(open, moved, if read then input else buffer) ==
              Replay(read, P.Flow(wasOpen, [], input), tally.results)
      ensures read ==> Concat(chunks) == Converted(convert, moved)
      ensures !read ==> chunks == [] && moved + buffer == input
      ensures inFlight == if pending then Some(buffer) else None
      ensures pending ==> open && (read ==> |buffer| == 4096)
      ensures open <==> cause.StillOpen?
      ensures cause.Drained? && !read ==> moved == input
    {
    }

    lemma Completes()
      requires Valid() && !open
      ensures Complete()
    {
    }

    /** Closed for good: nothing is in flight, the callback got all that was read, and a child that read its
        input to the end got all of it. */
    ghost predicate Complete()
      reads this
    {
      && !open && inFlight == None
      && if read then Concat(chunks) == Converted(convert, moved) else cause == Drained ==> moved == input
    }

    ghost predicate Refused()
      reads this
    {
      read && chunks != [] && !callback(chunks)
    }

    /** Valid, and the callback has not refused anything. */
    ghost predicate Live()
      reads this
    {
      Valid() && !Refused()
    }

    constructor Reader(open: bool, event: nat, convert: bool, callback: seq<string> -> bool)
      requires event != TIMER
      ensures Live() && !pending && read && this.open == open && this.event == event && this.convert == convert
      ensures moved == [] && tally == Tally(0, 0, Beginning)
    {
      this.open, this.event, this.convert, this.callback, wasOpen := open, event, convert, callback, open;
      pending, buffer, chunks, read, input := false, [], [], true, [];
      moved, tally := [], Tally(0, 0, Beginning);
      inFlight, cause := None, if open then StillOpen else NeverOpened;
    }

    constructor Writer(open: bool, event: nat, input: string)
      requires event != TIMER
      ensures Live() && !pending && !read && this.open == open && this.event == event && this.input == input
      ensures moved == [] && tally == Tally(0, 0, Beginning)
    {
      this.open, this.event, this.input, wasOpen := open, event, input, open;
      pending, buffer, chunks, read, convert := false, input, [], false, false;
      callback := _ => true;
      moved, tally := [], Tally(0, 0, Beginning);
      inFlight, cause := None, if open then StillOpen else NeverOpened;
    }

    /** The kernel's side of a completed operation on `request`. */
    ghost predicate Transferred(result: Result, request: string, was: string, count: nat, data: string)
      reads this
    {
      if result.Completed? then
        if read then
          count == Min(|result.available|, |request|) && data == result.available[..count] && moved == was + data
        else count == Min(result.room, |request|) && moved == was + request[..count]
      else count == 0 && moved == was && data == []
    }

    /** ReadFile or WriteFile: may not be called while an operation is in flight. */
    method Issue(issued: Issued) returns (count: nat, data: string)
      requires open && inFlight.None?
      modifies this`moved, this`tally, this`inFlight, this`cause
      ensures tally == AfterIssue(old(tally), issued)
      ensures Replayed() == match issued
                            case Now(result) => Next(read, old(Replayed()), result)
                            case Pending => old(Replayed())
      ensures issued.Pending? ==> inFlight == Some(buffer) && moved == old(moved) && cause == old(cause)
      ensures issued.Now? ==> inFlight == None && Transferred(issued.result, buffer, old(moved), count, data)
      ensures issued.Now? ==> cause == if issued.result.BrokenPipe? then Broke
                                       else if issued.result.Completed? && count == 0 then Drained else old(cause)
    {
      count, data := 0, [];
      tally := AfterIssue(tally, issued);
      if issued.Pending? {
        inFlight := Some(buffer);
      } else {
        count, data := Finish(issued.result, buffer);
      }
    }

    /** GetOverlappedResult: the buffer must still be the one the operation was issued with. */
    method Collect(result: Result) returns (count: nat, data: string)
      requires inFlight == Some(buffer)
      modifies this`moved, this`tally, this`inFlight, this`cause
      ensures tally == AfterCollect(old(tally), result)
      ensures Replayed() == Next(read, old(Replayed()), result)
      ensures inFlight == None && Transferred(result, buffer, old(moved), count, data)
      ensures cause == if result.BrokenPipe? then Broke
                       else if result.Completed? && count == 0 then Drained else old(cause)
    {
      inFlight, tally := None, AfterCollect(tally, result);
      count, data := Finish(result, buffer);
    }

    method Finish(result: Result, request: string) returns (count: nat, data: string)
      modifies this`moved, this`cause
      ensures Transferred(result, request, old(moved), count, data)
      ensures cause == if result.BrokenPipe? then Broke
                       else if result.Completed? && count == 0 then Drained else old(cause)
    {
      count, data := 0, [];
      match result
      case Completed(available, room) =>
        count := if read then Min(|available|, |request|) else Min(room, |request|);
        data := if read then available[..count] else [];
        moved := moved + if read then data else request[..count];
        cause := if count == 0 then Drained else cause;
      case BrokenPipe =>
        cause := Broke;
      case OtherError =>
    }

    /** What both the immediate and the asynchronous branch do with a transfer of `count` bytes. Answers
        false when the callback is done. */
    method Register(count: nat, data: string, ghost was: string) returns (more: bool)
      requires open && !pending && inFlight == None && cause == StillOpen && event != TIMER && count > 0
      requires read ==> |data| == count && moved == was + data && Concat(chunks) == Converted(convert, was)
      requires !read ==> chunks == [] && count <= |buffer| && was + buffer == input && moved == was + buffer[..count]
      requires Replayed() == P.Flow(true, moved, if read then input else Erased(buffer, count))
      modifies this`buffer, this`chunks
      ensures Valid() && !more == Refused() && (!more ==> read)
    {
      if !read {
        ErasedRest(buffer, count);
        buffer := Erased(buffer, count);
        return true;
      }
      buffer := if |data| <= |buffer| then data + Erased(buffer, |data|) else data;
      buffer := Resized(buffer, count);
      assert buffer == data;
      if convert {
        buffer := WithoutCrs(buffer);
      }
      ConvertedConcat(convert, was, data);
      ghost var before := chunks;
      chunks := chunks + [buffer];
      assert chunks[..|chunks| - 1] == before;
      more := callback(chunks);
    }

    /** The state of the pipe, and the attempts it made since then, account for this outcome. */
    ghost predicate Justifies(outcome: Outcome, attempts: seq<Attempt>, timeout: nat, callsWas: nat)
      reads this
    {
      var n := tally.calls - callsWas;
      && 0 <= n <= |attempts| && (outcome.Failed? ==> n > 0) && (outcome.GoOn? <==> Settled())
      && Smooth(attempts, if outcome.Failed? then n - 1 else n, timeout)
      && match outcome
         case GoOn => !Refused()
         case Stopped => Refused()
         case TimedOut => timeout > 0 && n < |attempts| && attempts[n].timerFired && !Refused()
         case Failed => attempts[n - 1].issued == Now(OtherError)
                        && !(timeout > 0 && attempts[n - 1].timerFired) && !Refused()
         case Running => n == |attempts| && !Refused()
         case Finished => false
    }

    /** How the first phase ends for a pipe: as one of its attempts says, after attempts that did not end it. It is
        stopped exactly by a refusal, and goes on exactly when the pipe is closed or waiting. */
    lemma JustifiesExactly(outcome: Outcome, attempts: seq<Attempt>, timeout: nat, callsWas: nat)
      requires Justifies(outcome, attempts, timeout, callsWas)
      ensures var n := tally.calls - callsWas;
              && 0 <= n <= |attempts|
              && (forall i :: 0 <= i < (if outcome.Failed? then n - 1 else n) ==>
                    !(timeout > 0 && attempts[i].timerFired) && attempts[i].issued != Now(OtherError))
              && (outcome.TimedOut? ==> timeout > 0 && n < |attempts| && attempts[n].timerFired)
              && (outcome.Failed? ==> n > 0 && attempts[n - 1].issued == Now(OtherError)
                                      && !(timeout > 0 && attempts[n - 1].timerFired))
              && (outcome.Running? ==> n == |attempts|)
      ensures outcome.GoOn? <==> !open || pending
      ensures outcome.Stopped? <==> read && chunks != [] && !callback(chunks)
      ensures !outcome.Finished?
    {
      var n := tally.calls - callsWas;
      SmoothExactly(attempts, if outcome.Failed? then n - 1 else n, timeout);
    }

    lemma {:induction false} AttemptJustifies(outcome: Outcome, attempts: seq<Attempt>, i: nat, timeout: nat,
                                              was: Tally)
      requires i < |attempts| && Smooth(attempts, i, timeout) && !outcome.Running? && !outcome.Finished?
      requires (outcome.Stopped? <==> Refused()) && (outcome.GoOn? <==> Settled())
      requires outcome.TimedOut? <==> timeout > 0 && attempts[i].timerFired
      requires outcome.Failed? <==> !outcome.TimedOut? && attempts[i].issued == Now(OtherError)
      requires tally == AfterAttempts(was, attempts, if outcome.TimedOut? then i else i + 1)
      ensures Took(was, tally, attempts) && Justifies(outcome, attempts, timeout, was.calls)
    {
    }

    /** Processes the pipe until an operation is pending or the pipe is closed. Answers Running when the
        script of attempts is over first. */
    method RunUntilPending(attempts: seq<Attempt>, timeout: nat) returns (outcome: Outcome)
      requires Live() && !pending && open
      modifies this
      ensures Valid() && Took(old(tally), tally, attempts)
      ensures Justifies(outcome, attempts, timeout, old(tally).calls)
    {
      for i := 0 to |attempts|
        invariant Live() && !pending && open && Smooth(attempts, i, timeout)
        invariant tally == AfterAttempts(old(tally), attempts, i)
      {
        outcome := TryOnce(attempts[i], timeout);
        if outcome != Running {
          AttemptJustifies(outcome, attempts, i, timeout, old(tally));
          return;
        }
      }
      return Running;
    }

    /** One pass of the inner loop. Answers Running when the operation completed at once. */
    method TryOnce(attempt: Attempt, timeout: nat) returns (outcome: Outcome)
      requires Live() && !pending && open
      modifies this
      ensures Valid() && (outcome.Stopped? <==> Refused())
      ensures outcome.GoOn? <==> Settled()
      ensures outcome.TimedOut? <==> timeout > 0 && attempt.timerFired
      ensures tally == if outcome.TimedOut? then old(tally) else AfterIssue(old(tally), attempt.issued)
      ensures outcome.Failed? <==> !outcome.TimedOut? && attempt.issued == Now(OtherError)
      ensures !outcome.Finished?
    {
      // A timeout is noticed even if no operation is ever pending.
      if timeout > 0 && attempt.timerFired {
        return TimedOut;
      }
      if read {
        buffer := Resized(buffer, CHUNK);
      }
      outcome := Start(attempt.issued);
    }

    /** Starts the operation and deals with it when it completes at once. */
    method Start(issued: Issued) returns (outcome: Outcome)
      requires Live() && !pending && open && (read ==> |buffer| == CHUNK)
      modifies this
      ensures Valid() && (outcome.Stopped? <==> Refused()) && tally == AfterIssue(old(tally), issued)
      ensures outcome.GoOn? <==> Settled()
      ensures outcome.Failed? <==> issued == Now(OtherError)
      ensures !outcome.Finished? && !outcome.TimedOut?
    {
      ghost var was := moved;
      var count, data := Issue(issued);
      if issued.Pending? {
        pending := true;
        return GoOn;
      }
      outcome := Deliver(issued.result, count, data, was);
      outcome := if outcome == GoOn && open then Running else outcome;
    }

    /** What is done with a result, whether it came at once or asynchronously: an error ends the run, nothing
        transferred closes the pipe, and anything else is registered. */
    method Deliver(result: Result, count: nat, data: string, ghost was: string) returns (outcome: Outcome)
      requires open && !pending && inFlight == None && event != TIMER && !Refused()
      requires cause == if result.BrokenPipe? then Broke
                        else if result.Completed? && count == 0 then Drained else StillOpen
      requires Transferred(result, buffer, was, count, data) && (read ==> |buffer| == CHUNK)
      requires Replayed() == Next(read, P.Flow(true, was, if read then input else buffer), result)
      requires if read then Concat(chunks) == Converted(convert, was) else chunks == [] && was + buffer == input
      modifies this`open, this`buffer, this`chunks
      ensures outcome.GoOn? || outcome.Stopped? || outcome.Failed?
      ensures Valid() && (outcome.Stopped? <==> Refused()) && (outcome.Failed? <==> result.OtherError?)
      ensures open || outcome.GoOn?
    {
      if result.OtherError? {
        return Failed;
      }
      if count == 0 {
        assert moved == was;
        open := false;
        return GoOn;
      }
      var more := Register(count, data, was);
      return if more then GoOn else Stopped;
    }

    /** Skips a closed or pending pipe, and processes any other. */
    method Settle(attempts: seq<Attempt>, timeout: nat) returns (outcome: Outcome)
      requires Live()
      modifies this
      ensures Valid() && Took(old(tally), tally, attempts)
      ensures Justifies(outcome, attempts, timeout, old(tally).calls)
    {
      if !open || pending {
        return GoOn;
      }
      outcome := RunUntilPending(attempts, timeout);
    }

    /** Handles the event of this pipe's pending operation. */
    method HandleEvent(result: Result) returns (outcome: Outcome)
      requires Live() && pending
      modifies this
      ensures outcome.GoOn? || outcome.Failed? || outcome.Stopped?
      ensures Valid() && (outcome.Stopped? <==> Refused()) && (outcome.Failed? <==> result.OtherError?)
      ensures !pending && tally == AfterCollect(old(tally), result)
    {
      ghost var was := moved;
      var count, data := Collect(result);
      pending := false;
      outcome := Deliver(result, count, data, was);
    }
  }

  // ----- The loop -----

  ghost predicate AllValid(inp: Pipe, out: Pipe, err: Pipe)
    reads inp, out, err
  {
    && inp != out && inp != err && out != err
    && inp.event != out.event && inp.event != err.event && out.event != err.event
    && inp.Valid() && out.Valid() && err.Valid()
  }

  ghost predicate AllLive(inp: Pipe, out: Pipe, err: Pipe)
    reads inp, out, err
  {
    AllValid(inp, out, err) && !inp.Refused() && !out.Refused() && !err.Refused()
  }

  ghost function Done(inp: Pipe, out: Pipe, err: Pipe): Tallies
    reads inp, out, err
  {
    Tallies(inp.tally, out.tally, err.tally)
  }

  ghost function Initials(inp: Pipe, out: Pipe, err: Pipe): Shapes {
    Shapes(inp.Initial(), out.Initial(), err.Initial())
  }

  /** The first phase of a turn ended like this because of one of the pipes, those before it being settled,
      or went on with all of them settled. */
  ghost predicate SettlingEnded(inp: Pipe, out: Pipe, err: Pipe, outcome: Outcome, turn: Turn, timeout: nat,
                                was: Tallies)
    reads inp, out, err
  {
    || (!outcome.GoOn? && inp.Justifies(outcome, turn.inp, timeout, was.inp.calls))
    || (inp.Justifies(GoOn, turn.inp, timeout, was.inp.calls) && OutputsEnded(out, err, outcome, turn, timeout, was))
  }

  ghost predicate OutputsEnded(out: Pipe, err: Pipe, outcome: Outcome, turn: Turn, timeout: nat, was: Tallies)
    reads out, err
  {
    || (!outcome.GoOn? && out.Justifies(outcome, turn.out, timeout, was.out.calls))
    || (out.Justifies(GoOn, turn.out, timeout, was.out.calls)
        && err.Justifies(outcome, turn.err, timeout, was.err.calls))
  }

  /** The first phase of a turn: every pipe that is neither closed nor pending runs until it is. */
  method SettleAll(inp: Pipe, out: Pipe, err: Pipe, turn: Turn, timeout: nat) returns (outcome: Outcome)
    requires AllLive(inp, out, err)
    modifies inp, out, err
    ensures AllValid(inp, out, err) && AllTook(old(Done(inp, out, err)), Done(inp, out, err), turn)
    ensures outcome.GoOn? ==> inp.Settled() && out.Settled() && err.Settled()
    ensures outcome.Stopped? || AllLive(inp, out, err)
    ensures SettlingEnded(inp, out, err, outcome, turn, timeout, old(Done(inp, out, err)))
  {
    outcome := inp.Settle(turn.inp, timeout);
    if outcome == GoOn {
      outcome := SettleOutputs(out, err, turn, timeout, old(Done(inp, out, err)));
    }
  }

  method SettleOutputs(out: Pipe, err: Pipe, turn: Turn, timeout: nat, ghost was: Tallies) returns (outcome: Outcome)
    requires out != err && out.Live() && err.Live() && was.out == out.tally && was.err == err.tally
    modifies out, err
    ensures out.Valid() && err.Valid() && (outcome.Stopped? || (out.Live() && err.Live()))
    ensures Took(was.out, out.tally, turn.out) && Took(was.err, err.tally, turn.err)
    ensures OutputsEnded(out, err, outcome, turn, timeout, was)
  {
    outcome := out.Settle(turn.out, timeout);
    if outcome == GoOn {
      outcome := err.Settle(turn.err, timeout);
    }
  }

  function WaitEntry(open: bool, pending: bool, event: nat): seq<nat> {
    if open && pending then [event] else []
  }

  /** The events of the pending pipes, in order. */
  ghost function Waiting(inp: Pipe, out: Pipe, err: Pipe): seq<nat>
    reads inp, out, err
  {
    WaitEntry(inp.open, inp.pending, inp.event) + WaitEntry(out.open, out.pending, out.event)
    + WaitEntry(err.open, err.pending, err.event)
  }

  /** The handles waited for are the events of the open pipes, in order. */
  lemma WaitingIs(o: Opens, inpEvent: nat, outEvent: nat, errEvent: nat, k: nat)
    ensures var events := WaitEntry(o.inp, o.inp, inpEvent) + WaitEntry(o.out, o.out, outEvent)
                          + WaitEntry(o.err, o.err, errEvent);
            && |events| == Count(o) && (Nth(o, k).Some? <==> k < |events|)
            && (k < |events| ==> events[k] == match Nth(o, k).value
                                              case Inp => inpEvent case Out => outEvent case Err => errEvent)
  {
  }

  /** The events to wait for. Once the pipes are settled there is none exactly when all are closed. */
  method WaitSet(inp: Pipe, out: Pipe, err: Pipe) returns (handles: seq<nat>)
    requires inp.Waits() && out.Waits() && err.Waits()
    ensures handles == Waiting(inp, out, err)
    ensures handles == [] <==> !inp.open && !out.open && !err.open
  {
    handles := WaitEntry(inp.open, inp.pending, inp.event);
    handles := handles + WaitEntry(out.open, out.pending, out.event);
    handles := handles + WaitEntry(err.open, err.pending, err.event);
  }

  ghost function PipeOf(inp: Pipe, out: Pipe, err: Pipe, side: Side): Pipe {
    match side case Inp => inp case Out => out case Err => err
  }

  /** Finds the pipe whose event was signalled and handles it. */
  method Dispatch(inp: Pipe, out: Pipe, err: Pipe, event: nat, result: Result, ghost side: Side)
    returns (outcome: Outcome)
    requires AllLive(inp, out, err)
    requires PipeOf(inp, out, err, side).pending && PipeOf(inp, out, err, side).event == event
    modifies PipeOf(inp, out, err, side)
    ensures AllValid(inp, out, err) && Done(inp, out, err) == Collecting(old(Done(inp, out, err)), side, result)
    ensures outcome.GoOn? || outcome.Stopped? || outcome.Failed?
    ensures (outcome.Stopped? <==> !AllLive(inp, out, err)) && (outcome.Failed? <==> result.OtherError?)
  {
    if inp.open && inp.pending && inp.event == event {
      outcome := inp.HandleEvent(result);
    } else if out.open && out.pending && out.event == event {
      outcome := out.HandleEvent(result);
    } else {
      outcome := err.HandleEvent(result);
    }
  }

  /** The turn ended the run: in its second phase, or in its first because of one of the pipes. */
  ghost predicate TurnEnded(inp: Pipe, out: Pipe, err: Pipe, outcome: Outcome, turn: Turn, timeout: nat,
                            was: Tallies, settled: bool)
    reads inp, out, err
  {
    var now := Done(inp, out, err);
    if settled then
      && TurnHandled(Initials(inp, out, err), was, now, outcome, turn, timeout)
      && (outcome.Finished? ==> inp.Complete() && out.Complete() && err.Complete())
    else
      AllTook(was, now, turn) && SettlingEnded(inp, out, err, outcome, turn, timeout, was)
  }

  /** One turn of the loop: settle the pipes, wait for one of them, and handle its event. Answers GoOn to
      go on. */
  method RunTurn(inp: Pipe, out: Pipe, err: Pipe, turn: Turn, timeout: nat)
    returns (outcome: Outcome, ghost settled: bool)
    requires AllLive(inp, out, err)
    modifies inp, out, err
    ensures AllValid(inp, out, err) && (outcome.Stopped? <==> !AllLive(inp, out, err))
    ensures outcome.GoOn? ==> settled
    ensures TurnEnded(inp, out, err, outcome, turn, timeout, old(Done(inp, out, err)), settled)
  {
    ghost var was := Done(inp, out, err);
    outcome := SettleAll(inp, out, err, turn, timeout);
    settled := outcome == GoOn;
    if outcome == GoOn {
      ghost var mid := Done(inp, out, err);
      SettledSmoothly(inp, out, err, turn, timeout, was);
      outcome := WaitAndHandle(inp, out, err, turn, timeout);
      EndedHandling(Initials(inp, out, err), was, mid, Done(inp, out, err), outcome, turn, timeout);
    }
  }

  lemma SettledSmoothly(inp: Pipe, out: Pipe, err: Pipe, turn: Turn, timeout: nat, was: Tallies)
    requires AllTook(was, Done(inp, out, err), turn)
    requires SettlingEnded(inp, out, err, GoOn, turn, timeout, was)
    ensures CallsFit(was, Done(inp, out, err), turn) && AllSmooth(was, Done(inp, out, err), turn, timeout)
  {
  }

  lemma EndedHandling(s: Shapes, was: Tallies, mid: Tallies, now: Tallies, outcome: Outcome, turn: Turn, timeout: nat)
    requires AllTook(was, mid, turn) && CallsFit(was, mid, turn) && AllSmooth(was, mid, turn, timeout)
    requires Handles(AllOpenBy(s, mid), mid, now, outcome, turn, timeout)
    ensures TurnHandled(s, was, now, outcome, turn, timeout)
  {
    MidIs(was, mid, now, turn);
  }

  /** The second phase of a turn: waits, and handles the event. */
  method WaitAndHandle(inp: Pipe, out: Pipe, err: Pipe, turn: Turn, timeout: nat) returns (outcome: Outcome)
    requires AllLive(inp, out, err) && inp.Settled() && out.Settled() && err.Settled()
    modifies inp, out, err
    ensures AllValid(inp, out, err) && (outcome.Stopped? <==> !AllLive(inp, out, err))
    ensures outcome.Finished? ==> inp.Complete() && out.Complete() && err.Complete()
    ensures Handles(AllOpenBy(Initials(inp, out, err), old(Done(inp, out, err))), old(Done(inp, out, err)),
                    Done(inp, out, err), outcome, turn, timeout)
  {
    ghost var o := Opens(inp.open, out.open, err.open);
    OpensAre(inp, out, err);
    var event;
    outcome, event := Await(inp, out, err, turn, timeout);
    if outcome == Finished {
      inp.Completes();
      out.Completes();
      err.Completes();
    }
    if outcome != GoOn { return; }

    outcome := Dispatch(inp, out, err, event, turn.result, Nth(o, turn.signalled).value);
  }

  lemma OpensAre(inp: Pipe, out: Pipe, err: Pipe)
    requires AllValid(inp, out, err)
    ensures AllOpenBy(Initials(inp, out, err), Done(inp, out, err)) == Opens(inp.open, out.open, err.open)
  {
  }

  /** Waits for one of the pipes, or the timer. */
  method Await(inp: Pipe, out: Pipe, err: Pipe, turn: Turn, timeout: nat) returns (outcome: Outcome, event: nat)
    requires inp.Waits() && out.Waits() && err.Waits()
    ensures var o := Opens(inp.open, out.open, err.open);
            match Nth(o, turn.signalled)
            case Some(side) => outcome.GoOn? && PipeOf(inp, out, err, side).pending
                               && PipeOf(inp, out, err, side).event == event
            case None => outcome == if Count(o) == 0 then Finished
                                    else if timeout > 0 && turn.signalled == Count(o) then TimedOut else Failed
  {
    event := TIMER;
    var handles := WaitSet(inp, out, err);
    WaitingIs(Opens(inp.open, out.open, err.open), inp.event, out.event, err.event, turn.signalled);
    if handles == [] {
      return Finished, event;
    }
    if timeout > 0 {
      handles := handles + [TIMER];
    }
    if turn.signalled >= |handles| {
      return Failed, event;
    }
    event := handles[turn.signalled];
    if timeout > 0 && event == TIMER {
      return TimedOut, event;
    }
    return GoOn, event;
  }

  /** What the pipes had done at the beginning of each of the first turns, which all went on. */
  ghost predicate Traces(s: Shapes, trace: seq<Tallies>, turns: seq<Turn>, timeout: nat) {
    && 0 < |trace| <= |turns| + 1
    && forall i :: 0 <= i < |trace| - 1 ==> TurnHandled(s, trace[i], trace[i + 1], GoOn, turns[i], timeout)
  }

  lemma EveryTurnWasHandled(s: Shapes, trace: seq<Tallies>, turns: seq<Turn>, timeout: nat, i: nat)
    requires Traces(s, trace, turns, timeout) && i + 1 < |trace|
    ensures i < |turns| && TurnHandled(s, trace[i], trace[i + 1], GoOn, turns[i], timeout)
  {
  }

  lemma TraceOn(s: Shapes, trace: seq<Tallies>, k: nat, now: Tallies, next: Tallies, turns: seq<Turn>, timeout: nat)
    requires Traces(s, trace, turns, timeout) && |trace| == k + 1 <= |turns| && trace[k] == now
    requires TurnHandled(s, now, next, GoOn, turns[k], timeout)
    ensures Traces(s, trace + [next], turns, timeout)
  {
  }

  /** The next turn of the loop, and the trace with it. */
  method NextTurn(inp: Pipe, out: Pipe, err: Pipe, turns: seq<Turn>, k: nat, timeout: nat, ghost trace: seq<Tallies>)
    returns (outcome: Outcome, ghost next: seq<Tallies>, ghost settled: bool)
    requires AllLive(inp, out, err) && Traces(Initials(inp, out, err), trace, turns, timeout)
    requires |trace| == k + 1 <= |turns| && trace[k] == Done(inp, out, err)
    modifies inp, out, err
    ensures AllValid(inp, out, err) && (outcome.Stopped? <==> !AllLive(inp, out, err))
    ensures if outcome.GoOn? then next == trace + [Done(inp, out, err)]
            else next == trace && TurnEnded(inp, out, err, outcome, turns[k], timeout, trace[k], settled)
    ensures Traces(Initials(inp, out, err), next, turns, timeout)
  {
    ghost var now := Done(inp, out, err);
    outcome, settled := RunTurn(inp, out, err, turns[k], timeout);
    next := trace;
    if outcome == GoOn {
      TraceOn(Initials(inp, out, err), trace, k, now, Done(inp, out, err), turns, timeout);
      next := trace + [Done(inp, out, err)];
    }
  }

  /** Moves bytes between the child and the pipes for as long as the script lasts, and answers GoOn when it
      is over. The trace accounts for the turns that went on, and the last turn for how the run ended: a
      finished run has written the whole input to a child that read it to its end, and has handed each
      callback all the output, less carriage returns when converting newlines. */
  method RwFromChild(inp: Pipe, out: Pipe, err: Pipe, turns: seq<Turn>, timeout: nat)
    returns (outcome: Outcome, k: nat, ghost trace: seq<Tallies>, ghost settled: bool)
    requires AllLive(inp, out, err)
    modifies inp, out, err
    ensures AllValid(inp, out, err) && (outcome.Stopped? <==> !AllLive(inp, out, err))
    ensures Traces(Initials(inp, out, err), trace, turns, timeout)
    ensures |trace| == k + 1 && trace[0] == old(Done(inp, out, err))
    ensures if outcome.GoOn? then k == |turns| && trace[k] == Done(inp, out, err)
            else k < |turns| && TurnEnded(inp, out, err, outcome, turns[k], timeout, trace[k], settled)
  {
    outcome, k, trace, settled := GoOn, 0, [Done(inp, out, err)], true;
    while k < |turns|
      invariant AllLive(inp, out, err) && outcome.GoOn? && Traces(Initials(inp, out, err), trace, turns, timeout)
      invariant |trace| == k + 1 && trace[0] == old(Done(inp, out, err)) && trace[k] == Done(inp, out, err)
      decreases |turns| - k
    {
      outcome, trace, settled := NextTurn(inp, out, err, turns, k, timeout, trace);
      if outcome != GoOn { return; }
      k := k + 1;
    }
  }

  /** The pipes are settled in the order input, output, error output, and the first that does not go on ends the
      phase. */
  lemma FirstPhaseEnds(inp: Pipe, out: Pipe, err: Pipe, outcome: Outcome, turn: Turn, timeout: nat, was: Tallies)
    requires SettlingEnded(inp, out, err, outcome, turn, timeout, was)
    ensures inp.Justifies(outcome, turn.inp, timeout, was.inp.calls) || inp.Settled()
    ensures inp.Settled() ==> out.Justifies(outcome, turn.out, timeout, was.out.calls) || out.Settled()
    ensures inp.Settled() && out.Settled() ==> err.Justifies(outcome, turn.err, timeout, was.err.calls)
  {
  }

  /** A finished run leaves every pipe closed with nothing in flight: each callback has been handed all the output,
      converted, and a child that read its input to the end has got all of it. */
  lemma FinishedIsComplete(inp: Pipe, out: Pipe, err: Pipe, turn: Turn, timeout: nat, was: Tallies, settled: bool)
    requires TurnEnded(inp, out, err, Finished, turn, timeout, was, settled)
    ensures !inp.open && !out.open && !err.open
    ensures inp.inFlight.None? && out.inFlight.None? && err.inFlight.None?
    ensures out.read ==> Concat(out.chunks) == Converted(out.convert, out.moved)
    ensures err.read ==> Concat(err.chunks) == Converted(err.convert, err.moved)
    ensures !inp.read && inp.cause.Drained? ==> inp.moved == inp.input
  {
  }

  /** A run is stopped exactly by a callback that refuses what it has just been handed. */
  lemma StoppedExactly(inp: Pipe, out: Pipe, err: Pipe)
    requires AllValid(inp, out, err)
    ensures !AllLive(inp, out, err) <==>
            || (inp.read && inp.chunks != [] && !inp.callback(inp.chunks))
            || (out.read && out.chunks != [] && !out.callback(out.chunks))
            || (err.read && err.chunks != [] && !err.callback(err.chunks))
  {
  }
}
