/** Replies read from a file: an optional capped first write, then reader writes until the file ends. */
module FileReply {
  import opened Common
  import opened Wire

  const DELAY_AFTER := 10_000_000

  /** The file, the -w option (0 when absent) and whether responses are to be delayed. */
  datatype Plan = Plan(content: string, cap: int, delay: bool)

  /** `closed`: the stream was closed after a write failed on a connection going away; `exited`: the program
      ended. */
  datatype State = State(started: bool, pos: nat, headersSent: bool, wantWrite: bool, delayed: bool, waiting: bool,
                         written: nat, closed: bool, exited: bool, wire: Wire)

  /** What a write comes to: how much the engine pulls if it can, all of it sent; or that much pulled and lost. */
  datatype Outcome = Took(n: nat) | Failed(n: nat, goaway: bool)

  /** process_request, on_write and the delay timer. */
  datatype Event =
    | Request(headersOk: bool, write: Outcome)
    | OnWrite(headersOk: bool, timerOk: bool, write: Outcome)
    | Resume

  const BEFORE := State(false, 0, false, false, false, false, 0, false, false, SILENT)

  /** The cap as the unsigned subtractions see it. */
  function Cap64(cap: int): nat {
    cap % SIZE_RANGE
  }

  lemma NoWrap(cap: int, nread: nat)
    requires nread <= Cap64(cap)
    ensures (cap - nread) % SIZE_RANGE == Cap64(cap) - nread
  {
  }

  function Lose(p: Plan, s: State, n: nat): (t: State)
    requires s.pos <= |p.content|
    ensures t.pos <= |p.content|
  {
    s.(pos := s.pos + Min(n, |p.content| - s.pos))
  }

  function Deliver(p: Plan, s: State, n: nat): (t: State)
    requires s.pos <= |p.content|
    ensures t.pos <= |p.content|
  {
    var t := Lose(p, s, n);
    t.(wire := Write(s.wire, p.content[s.pos..t.pos]))
  }

  /** A write that pulls n bytes if they are left, and then fails or not. */
  function Pulled(p: Plan, s: State, n: nat, fails: bool): (t: State)
    requires s.pos <= |p.content|
    ensures t.pos <= |p.content|
  {
    if fails then Lose(p, s, n) else Deliver(p, s, n)
  }

  function Finish(s: State): State {
    s.(wantWrite := false, wire := Shutdown(s.wire))
  }

  function AskOrFinish(p: Plan, s: State): State {
    if s.pos < |p.content| then s.(wantWrite := true) else Finish(s)
  }

  function Headers(s: State, headersOk: bool): State {
    if headersOk then s.(headersSent := true, wire := SendHead(s.wire, Head("200", None))) else s.(exited := true)
  }

  /** The capped write, if there is something to write. */
  function Immediate(p: Plan, s: State, write: Outcome): (t: State)
    requires s.pos <= |p.content|
    ensures t.pos <= |p.content|
  {
    if s.pos == |p.content| then Finish(s)
    else
      var t := Pulled(p, s, Min(write.n, Cap64(p.cap)), write.Failed?);
      if write.Failed? then t.(exited := true) else AskOrFinish(p, t)
  }

  function Requested(p: Plan, s: State, headersOk: bool, write: Outcome): (t: State)
    requires s.pos <= |p.content|
    ensures t.pos <= |p.content|
  {
    var s := s.(started := true);
    if p.cap == 0 then s.(wantWrite := true)
    else
      var s := Headers(s, headersOk);
      if s.exited then s else Immediate(p, s, write)
  }

  /** What follows a write that returned nw. A failed one ends the program, unless the peer is going away: then the
      stream is closed and the code goes on with the result -1, added to a size_t. */
  function Settled(p: Plan, s: State, nw: int, goaway: bool): (t: State)
    requires s.pos <= |p.content| && nw >= -1
    ensures t.pos <= |p.content|
  {
    if nw < 0 && !goaway then s.(exited := true)
    else
      var sum := if nw < 0 then (s.written + SIZE_RANGE - 1) % SIZE_RANGE else s.written + nw;
      AskOrFinish(p, s.(closed := s.closed || nw < 0, written := if s.pos < |p.content| then sum else s.written))
  }

  function Continued(p: Plan, s: State, write: Outcome): (t: State)
    requires s.pos <= |p.content|
    ensures t.pos <= |p.content|
  {
    var t := Pulled(p, s, write.n, write.Failed?);
    if write.Failed? then Settled(p, t, -1, write.goaway) else Settled(p, t, t.pos - s.pos, false)
  }

  predicate Delays(p: Plan, s: State) {
    p.delay && !s.delayed && s.written > DELAY_AFTER
  }

  function Written(p: Plan, s: State, headersOk: bool, timerOk: bool, write: Outcome): (t: State)
    requires s.pos <= |p.content|
    ensures t.pos <= |p.content|
  {
    if !s.headersSent then Headers(s, headersOk)
    else if s.pos == |p.content| then Finish(s)
    else if Delays(p, s) && timerOk then s.(wantWrite := false, delayed := true, waiting := true)
    else Continued(p, s, write)
  }

  /** Events that cannot happen now are stutters: anything after the stream was closed or the program ended, a
      second request, a write not asked for, a timer not set. */
  function Step(p: Plan, s: State, e: Event): (t: State)
    requires s.pos <= |p.content|
    ensures t.pos <= |p.content|
  {
    if s.closed || s.exited then s
    else match e
      case Request(headersOk, write) => if s.started then s else Requested(p, s, headersOk, write)
      case OnWrite(headersOk, timerOk, write) => if s.wantWrite then Written(p, s, headersOk, timerOk, write) else s
      case Resume => if s.waiting then s.(wantWrite := true, waiting := false) else s
  }

  function After(p: Plan, run: Run<Event>): (s: State)
    ensures s.pos <= |p.content|
  {
    match run
    case Start => BEFORE
    case Then(before, e) => Step(p, After(p, before), e)
  }

  predicate IsLive(s: State) {
    !s.closed && !s.exited
  }

  /** What holds of whatever was sent, even when the stream or the program ended badly. */
  ghost predicate Safe(p: Plan, s: State) {
    && s.pos <= |p.content|
    && (!s.started ==> s == BEFORE)
    && s.wire.ordered && s.wire.promises == []
    && s.wire.body <= p.content
    && s.wire.head == (if s.headersSent then Some(Head("200", None)) else None)
    && (s.wire.fin ==> s.closed || s.wire.body == p.content)
    && (s.delayed ==> p.delay && |s.wire.body| > DELAY_AFTER)
  }

  ghost predicate Working(p: Plan, s: State) {
    && s.pos == |s.wire.body| && s.written <= s.pos
    && (s.wire.fin ==> s.headersSent && !s.wantWrite && !s.waiting && s.started)
    && (s.headersSent && !s.wire.fin && s.pos == |p.content| ==> p.content == [] && p.cap == 0 && s.wire.writes == 0)
    && (s.started && !s.wire.fin ==> s.wantWrite != s.waiting)
    && (s.started && p.cap != 0 ==> s.headersSent)
    && (s.waiting ==> s.headersSent && s.pos < |p.content| && s.delayed)
    && (s.delayed ==> s.headersSent)
    && (!s.headersSent ==> s.pos == 0 && s.wire.writes == 0)
  }

  ghost predicate Inv(p: Plan, s: State) {
    Safe(p, s) && (IsLive(s) ==> Working(p, s))
  }

  lemma InvRequest(p: Plan, headersOk: bool, write: Outcome)
    ensures Inv(p, Requested(p, BEFORE, headersOk, write))
  {
  }

  lemma InvWritten(p: Plan, s: State, headersOk: bool, timerOk: bool, write: Outcome)
    requires Inv(p, s) && IsLive(s) && s.wantWrite
    ensures Inv(p, Written(p, s, headersOk, timerOk, write))
  {
  }

  lemma InvStep(p: Plan, s: State, e: Event)
    requires Inv(p, s)
    ensures Inv(p, Step(p, s, e))
  {
    if IsLive(s) {
      match e
      case Request(headersOk, write) => if !s.started { InvRequest(p, headersOk, write); }
      case OnWrite(headersOk, timerOk, write) => if s.wantWrite { InvWritten(p, s, headersOk, timerOk, write); }
      case Resume =>
    }
  }

  lemma {:induction false} InvAlways(p: Plan, run: Run<Event>)
    ensures Inv(p, After(p, run))
  {
    if run.Then? {
      InvAlways(p, run.before);
      InvStep(p, After(p, run.before), run.last);
    }
  }

  /** Whatever the cap, the chunks, the delay and the failures: headers once and first, then the file's bytes in
      order, none twice and none left out before another. Unless a write fails, the stream is shut only when all went
      out, and by the write that sends the last one; until then it waits for a write callback or for the timer. It
      is delayed only if that was asked for and after more than 10,000,000 bytes. */
  lemma {:induction false} WholeFile(p: Plan, run: Run<Event>)
    ensures var s := After(p, run); var w := s.wire;
      && w.ordered
      && w.body <= p.content
      && (w.head.Some? ==> w.head.value == Head("200", None))
      && (w.fin ==> s.closed || w.body == p.content)
      && (IsLive(s) && w.body == p.content && w.writes > 0 ==> w.fin)
      && (IsLive(s) && s.started && !w.fin ==> s.wantWrite || s.waiting)
      && (s.delayed ==> p.delay && |w.body| > 10_000_000)
  {
    InvAlways(p, run);
  }

  /** What one more write callback does, at any point of any run: nothing if none is awaited; the headers, if they
      are not out; the end, if nothing is left; the delay, if it is due and its timer can be set; else a write of as
      many bytes as the engine pulls, never more than are left. A failing write ends the program, or closes the stream
      of a connection that is going away; headers that fail end it too. */
  lemma {:induction false} OneMoreWrite(p: Plan, run: Run<Event>, headersOk: bool, timerOk: bool, write: Outcome)
    ensures var s, t := After(p, run), After(p, Then(run, OnWrite(headersOk, timerOk, write)));
      var left := |p.content| - |s.wire.body|;
      if s.closed || s.exited || !s.wantWrite then t == s
      else if s.wire.head == None then
        t.wire.body == [] && (headersOk <==> t.wire.head != None) && t.exited == !headersOk && !t.closed
      else if left == 0 then t.wire.fin && t.wire.body == s.wire.body && !t.exited && !t.closed
      else if p.delay && !s.delayed && s.written > 10_000_000 && timerOk then
        t.waiting && t.delayed && !t.wantWrite && t.wire == s.wire && !t.exited && !t.closed
      else if write.Failed? then
        t.wire.body == s.wire.body && t.exited == !write.goaway && t.closed == write.goaway
      else
        && |t.wire.body| - |s.wire.body| == (if write.n < left then write.n else left)
        && (t.wire.fin <==> |t.wire.body| == |p.content|) && (t.wire.fin || t.wantWrite)
        && (!t.wire.fin ==> t.written == s.written + |t.wire.body| - |s.wire.body|)
        && !t.exited && !t.closed && t.delayed == s.delayed
  {
    InvAlways(p, run);
    InvStep(p, After(p, run), OnWrite(headersOk, timerOk, write));
  }

  /** And what the request does: without a cap it asks for a write callback; with one, the headers and a write go
      out at once, of as many bytes as the engine pulls, the cap lets through and the file has. */
  lemma {:induction false} TheRequest(p: Plan, run: Run<Event>, headersOk: bool, write: Outcome)
    requires !After(p, run).started
    ensures var t := After(p, Then(run, Request(headersOk, write)));
      var most := if 0 <= p.cap < 18446744073709551616 && p.cap < |p.content| then p.cap else |p.content|;
      if p.cap == 0 then t.wantWrite && t.wire == SILENT && !t.exited && !t.closed
      else if !headersOk then t.exited && t.wire == SILENT
      else if p.content == [] then t.wire.fin && !t.exited
      else if write.Failed? then t.exited && t.wire.body == []
      else
        && t.wire.head == Some(Head("200", None)) && !t.exited && !t.closed
        && (0 < p.cap < 18446744073709551616 ==> |t.wire.body| == if write.n < most then write.n else most)
        && (t.wire.fin <==> |t.wire.body| == |p.content|) && (t.wire.fin || t.wantWrite)
  {
    InvAlways(p, run);
    InvStep(p, After(p, run), Request(headersOk, write));
  }

  /** A write that pulls the rest of the file and then fails, on a connection going away. */
  predicate LosesTheRest(p: Plan, s: State, e: Event)
    requires s.pos <= |p.content|
  {
    && IsLive(s) && s.wantWrite && s.headersSent && s.pos < |p.content|
    && e.OnWrite? && !(Delays(p, s) && e.timerOk)
    && e.write.Failed? && e.write.goaway && e.write.n >= |p.content| - s.pos
  }

  predicate LostTheRest(p: Plan, run: Run<Event>) {
    run.Then? && (LostTheRest(p, run.before) || LosesTheRest(p, After(p, run.before), run.last))
  }

  lemma ShutsShort(p: Plan, s: State, e: Event)
    requires Inv(p, s) && IsLive(s) && !s.wire.fin
    ensures var t := Step(p, s, e); t.wire.fin && t.wire.body != p.content <==> LosesTheRest(p, s, e)
  {
    InvStep(p, s, e);
  }

  /** That is the one way to shut a stream before all went out. */
  lemma {:induction false} ShutShortExactlyWhen(p: Plan, run: Run<Event>)
    ensures var w := After(p, run).wire; w.fin && w.body != p.content <==> LostTheRest(p, run)
  {
    if run.Then? {
      var s := After(p, run.before);
      ShutShortExactlyWhen(p, run.before);
      InvAlways(p, run.before);
      if IsLive(s) && !s.wire.fin {
        ShutsShort(p, s, run.last);
      }
    }
  }

  lemma ShutShort()
    ensures var p := Plan("ab", 0, false);
      var run := Then(Then(Then(Start, Request(true, Took(0))), OnWrite(true, true, Took(0))),
                      OnWrite(true, true, Failed(2, true)));
      After(p, run).wire.fin && After(p, run).wire.body == []
  {
  }

  lemma RequestIsCapped(p: Plan, headersOk: bool, write: Outcome)
    requires p.cap != 0
    ensures |Requested(p, BEFORE, headersOk, write).wire.body| <= Cap64(p.cap)
  {
  }

  /** The first write respects the cap, whenever it comes; and the cap is the option's value unless that is negative. */
  lemma {:induction false} ImmediateWriteIsCapped(p: Plan, before: Run<Event>, headersOk: bool, write: Outcome)
    requires p.cap != 0 && !After(p, before).started
    ensures |After(p, Then(before, Request(headersOk, write))).wire.body| <= Cap64(p.cap)
    ensures 0 <= p.cap < 18446744073709551616 ==> Cap64(p.cap) == p.cap
    ensures -18446744073709551616 < p.cap < 0 ==> Cap64(p.cap) == 18446744073709551616 + p.cap
  {
    InvAlways(p, before);
    RequestIsCapped(p, headersOk, write);
  }

  // ----- how many callbacks a reply takes -----

  /** Is this the callback the stream waits for, headers going out and at least a byte pulled by later writes? */
  predicate Helps(p: Plan, s: State, e: Event) {
    match e
    case Request(headersOk, write) => !s.started && (p.cap != 0 ==> headersOk && write.Took?)
    case OnWrite(headersOk, _, write) => s.wantWrite && headersOk && write.Took? && write.n > 0
    case Resume => s.waiting
  }

  predicate EachHelps(p: Plan, run: Run<Event>) {
    run.Then? ==>
      EachHelps(p, run.before) && (After(p, run.before).wire.fin || Helps(p, After(p, run.before), run.last))
  }

  /** Will the delay come, if every write from here on takes one byte? */
  predicate MayDelay(p: Plan, s: State) {
    p.delay && !s.delayed && s.written + (|p.content| - 1 - s.pos) > DELAY_AFTER
  }

  /** The callbacks still to come at that pace: the request, the headers, the delay and its timer, the bytes. */
  function Rank(p: Plan, s: State): int {
    if s.wire.fin then 0
    else
      (if s.started then 0 else 1)
      + (if s.headersSent || p.cap != 0 then 0 else 1)
      + (if |p.content| > 0 then |p.content| - s.pos else if p.cap == 0 then 1 else 0)
      + (if s.waiting then 1 else if MayDelay(p, s) then 2 else 0)
  }

  /** Request, headers and bytes; an empty file takes one write to end, or none with a cap; two for the delay. */
  function Callbacks(p: Plan): nat {
    var size := |p.content|;
    (if p.cap == 0 then 2 else 1) + (if size > 0 then size else if p.cap == 0 then 1 else 0)
    + if p.delay && size > DELAY_AFTER + 1 then 2 else 0
  }

  lemma HelpCounts(p: Plan, s: State, e: Event)
    requires Inv(p, s) && IsLive(s) && !s.wire.fin && Helps(p, s, e)
    ensures IsLive(Step(p, s, e)) && Rank(p, Step(p, s, e)) < Rank(p, s)
  {
  }

  lemma {:induction false} RankFalls(p: Plan, run: Run<Event>)
    requires EachHelps(p, run)
    ensures var s := After(p, run); IsLive(s) && (s.wire.fin || Rank(p, s) + Length(run) <= Callbacks(p))
  {
    if run.Then? {
      RankFalls(p, run.before);
      InvAlways(p, run.before);
      var s := After(p, run.before);
      if !s.wire.fin {
        HelpCounts(p, s, run.last);
      }
    }
  }

  lemma RankIsPositive(p: Plan, s: State)
    requires Inv(p, s) && IsLive(s) && !s.wire.fin
    ensures Rank(p, s) > 0
  {
  }

  /** That many in numbers. */
  lemma CallbacksInNumbers(p: Plan)
    ensures p.content != [] && (!p.delay || |p.content| <= 10_000_001) ==>
              Callbacks(p) == |p.content| + if p.cap == 0 then 2 else 1
    ensures p.delay && |p.content| > 10_000_001 ==> Callbacks(p) == |p.content| + if p.cap == 0 then 4 else 3
    ensures p.content == [] ==> Callbacks(p) == if p.cap == 0 then 3 else 1
  {
  }

  /** After that many callbacks, each the one awaited and none failing, the whole file is sent and the stream shut. */
  lemma {:induction false} Completes(p: Plan, run: Run<Event>)
    requires EachHelps(p, run) && Length(run) >= Callbacks(p)
    ensures After(p, run).wire.fin && After(p, run).wire.body == p.content
  {
    RankFalls(p, run);
    InvAlways(p, run);
    if !After(p, run).wire.fin {
      RankIsPositive(p, After(p, run));
    }
  }

  /** The slowest engine: nothing on request, then a byte at a time. */
  function Slowest(s: State): Event {
    if !s.started then Request(true, Took(0)) else if s.waiting then Resume else OnWrite(true, true, Took(1))
  }

  lemma SlowestCountsOne(p: Plan, s: State)
    requires Inv(p, s) && IsLive(s) && !s.wire.fin
    ensures Helps(p, s, Slowest(s)) && Rank(p, Step(p, s, Slowest(s))) == Rank(p, s) - 1
  {
  }

  lemma {:induction false} SlowRun(p: Plan, n: nat) returns (run: Run<Event>)
    requires n < Callbacks(p)
    ensures EachHelps(p, run) && Length(run) == n && Rank(p, After(p, run)) == Callbacks(p) - n
  {
    run := Start;
    if n > 0 {
      run := SlowRun(p, n - 1);
      RankFalls(p, run);
      InvAlways(p, run);
      SlowestCountsOne(p, After(p, run));
      run := Then(run, Slowest(After(p, run)));
    }
  }

  /** And one fewer may not be enough, for any file, cap and delay. */
  lemma CompletesIsTight(p: Plan)
    ensures exists run :: EachHelps(p, run) && Length(run) == Callbacks(p) - 1 && !After(p, run).wire.fin
  {
    var run := SlowRun(p, Callbacks(p) - 1);
    assert !After(p, run).wire.fin;
  }

  // ----- the callbacks -----

  /** What a write pulls if enough is left: each read as much as the engine asks for and the file gives. */
  function Asked(counts: seq<nat>, gives: seq<nat>): nat
    requires |counts| == |gives|
  {
    if counts == [] then 0
    else
      Asked(counts[..|counts| - 1], gives[..|gives| - 1]) + Min(counts[|counts| - 1], gives[|gives| - 1])
  }

  lemma {:induction false} AskedIsSum(counts: seq<nat>, gives: seq<nat>, least: seq<nat>)
    requires |counts| == |gives| == |least|
    requires forall i :: 0 <= i < |least| ==> least[i] == if counts[i] < gives[i] then counts[i] else gives[i]
    ensures Asked(counts, gives) == Sum(least)
  {
    var n := |counts|;
    if n > 0 {
      AskedIsSum(counts[..n - 1], gives[..n - 1], least[..n - 1]);
    }
  }

  function WriteOutcome(counts: seq<nat>, gives: seq<nat>, fails: bool, goaway: bool): Outcome
    requires |counts| == |gives|
  {
    if fails then Failed(Asked(counts, gives), goaway) else Took(Asked(counts, gives))
  }

  class FileStream {
    const plan: Plan
    var pos: nat
    var started: bool
    var headersSent: bool
    var wantWrite: bool
    var delayed: bool
    var waiting: bool
    var written: nat
    var closed: bool
    var exited: bool
    var wire: Wire

    ghost predicate Valid()
      reads this
    {
      pos <= |plan.content|
    }

    ghost function View(): State
      reads this
    {
      State(started, pos, headersSent, wantWrite, delayed, waiting, written, closed, exited, wire)
    }

    constructor (plan: Plan)
      ensures Valid() && View() == BEFORE && this.plan == plan
    {
      this.plan, pos, started, headersSent, wantWrite := plan, 0, false, false, false;
      delayed, waiting, written, closed, exited, wire := false, false, 0, false, false, SILENT;
    }

    method BytesLeft() returns (n: nat)
      requires Valid()
      ensures n == |plan.content| - pos
    {
      n := |plan.content| - pos;
    }

    /** The file reader: up to `count` bytes, fewer if the file or the read ends earlier. */
    method ReaderRead(count: nat, gives: nat) returns (chunk: string)
      requires Valid()
      modifies this`pos
      ensures Valid() && pos == old(pos) + |chunk| && chunk == plan.content[old(pos)..pos]
      ensures |chunk| == Min(gives, Min(count, |plan.content| - old(pos)))
    {
      var n := Min(gives, Min(count, |plan.content| - pos));
      chunk := plan.content[pos..pos + n];
      pos := pos + n;
    }

    /** capped_reader_size: the unsigned subtraction, then the minimum. */
    method CappedSize(nread: nat) returns (size: nat)
      requires Valid() && nread <= Cap64(plan.cap)
      ensures size == Min(Cap64(plan.cap) - nread, |plan.content| - pos)
    {
      var left := BytesLeft();
      size := Min((plan.cap - nread) % SIZE_RANGE, left);
      NoWrap(plan.cap, nread);
    }

    /** capped_reader_read. */
    method CappedRead(nread: nat, count: nat, gives: nat) returns (chunk: string, nread': nat)
      requires Valid() && nread <= Cap64(plan.cap)
      modifies this`pos
      ensures Valid() && pos == old(pos) + |chunk| && chunk == plan.content[old(pos)..pos]
      ensures nread' == nread + |chunk| <= Cap64(plan.cap)
      ensures |chunk| == Min(Min(count, gives), Min(Cap64(plan.cap) - nread, |plan.content| - old(pos)))
    {
      NoWrap(plan.cap, nread);
      chunk := ReaderRead(Min(count, (plan.cap - nread) % SIZE_RANGE), gives);
      nread' := nread + |chunk|;
    }

    /** lsquic_stream_writef with the capped reader: any sequence of reads, and then success or -1. */
    method WriteCapped(counts: seq<nat>, gives: seq<nat>, fails: bool) returns (nw: int)
      requires Valid() && |counts| == |gives|
      modifies this`pos, this`wire
      ensures Valid() && nw == if fails then -1 else pos - old(pos)
      ensures pos - old(pos) == Min(Min(Asked(counts, gives), Cap64(plan.cap)), |plan.content| - old(pos))
      ensures View() == Pulled(plan, old(View()), Min(Asked(counts, gives), Cap64(plan.cap)), fails)
      ensures wire == if fails then old(wire) else Write(old(wire), plan.content[old(pos)..pos])
    {
      var nread: nat, all: string := 0, [];
      ghost var pos0 := pos;
      for i := 0 to |counts|
        invariant Valid() && pos == pos0 + nread && all == plan.content[pos0..pos] && wire == old(wire)
        invariant nread == Min(Min(Asked(counts[..i], gives[..i]), Cap64(plan.cap)), |plan.content| - pos0)
      {
        assert counts[..i + 1][..i] == counts[..i] && gives[..i + 1][..i] == gives[..i];
        ghost var mid := pos;
        var chunk;
        chunk, nread := CappedRead(nread, counts[i], gives[i]);
        assert plan.content[pos0..mid] + plan.content[mid..pos] == plan.content[pos0..pos];
        all := all + chunk;
      }
      assert counts[..|counts|] == counts && gives[..|gives|] == gives;
      if fails {
        return -1;
      }
      wire := Write(wire, all);
      nw := nread;
    }

    /** lsquic_stream_writef with the plain reader. */
    method WritePlain(counts: seq<nat>, gives: seq<nat>, fails: bool) returns (nw: int)
      requires Valid() && |counts| == |gives|
      modifies this`pos, this`wire
      ensures Valid() && nw == if fails then -1 else pos - old(pos)
      ensures pos - old(pos) == Min(Asked(counts, gives), |plan.content| - old(pos))
      ensures View() == Pulled(plan, old(View()), Asked(counts, gives), fails)
      ensures wire == if fails then old(wire) else Write(old(wire), plan.content[old(pos)..pos])
    {
      var all: string := [];
      ghost var pos0 := pos;
      for i := 0 to |counts|
        invariant Valid() && pos == pos0 + |all| && all == plan.content[pos0..pos] && wire == old(wire)
        invariant |all| == Min(Asked(counts[..i], gives[..i]), |plan.content| - pos0)
      {
        assert counts[..i + 1][..i] == counts[..i] && gives[..i + 1][..i] == gives[..i];
        ghost var mid := pos;
        var chunk := ReaderRead(counts[i], gives[i]);
        assert plan.content[pos0..mid] + plan.content[mid..pos] == plan.content[pos0..pos];
        all := all + chunk;
      }
      assert counts[..|counts|] == counts && gives[..|gives|] == gives;
      if fails {
        return -1;
      }
      wire := Write(wire, all);
      nw := |all|;
    }

    /** send_headers; a failure ends the program. */
    method SendHeaders(headersOk: bool)
      requires Valid()
      modifies this`headersSent, this`exited, this`wire
      ensures View() == Headers(old(View()), headersOk)
    {
      if headersOk {
        wire := SendHead(wire, Head("200", None));
        headersSent := true;
      } else {
        exited := true;
      }
    }

    /** Ask for a write, or shut the send side when nothing is left. */
    method AskOrShut()
      requires Valid()
      modifies this`wantWrite, this`wire
      ensures View() == AskOrFinish(plan, old(View()))
    {
      var left := BytesLeft();
      if left > 0 {
        wantWrite := true;
      } else {
        wire := Shutdown(wire);
        wantWrite := false;
      }
    }

    /** The capped write, if there is something to write. */
    method WriteAtOnce(counts: seq<nat>, gives: seq<nat>, fails: bool)
      requires Valid() && |counts| == |gives|
      modifies this
      ensures Valid() && View() == Immediate(plan, old(View()), WriteOutcome(counts, gives, fails, false))
    {
      var left := BytesLeft();
      if left > 0 {
        var nw := WriteCapped(counts, gives, fails);
        if nw < 0 {
          exited := true;
          return;
        }
      }
      AskOrShut();
    }

    /** process_request, reader mode. */
    method ProcessRequest(headersOk: bool, counts: seq<nat>, gives: seq<nat>, fails: bool)
      requires Valid() && !started && !closed && !exited && |counts| == |gives|
      modifies this
      ensures Valid()
      ensures View() == Step(plan, old(View()), Request(headersOk, WriteOutcome(counts, gives, fails, false)))
    {
      started := true;
      if plan.cap == 0 {
        wantWrite := true;
        return;
      }
      SendHeaders(headersOk);
      if exited {
        return;
      }
      WriteAtOnce(counts, gives, fails);
    }

    /** http_server_on_write from the check of the write's result on. */
    method Settle(nw: int, goaway: bool)
      requires Valid() && nw >= -1
      modifies this`closed, this`exited, this`written, this`wantWrite, this`wire
      ensures View() == Settled(plan, old(View()), nw, goaway)
    {
      if nw < 0 {
        if goaway {
          closed := true;
        } else {
          exited := true;
          return;
        }
      }
      var left := BytesLeft();
      if left > 0 {
        written := if nw < 0 then (written + SIZE_RANGE + nw) % SIZE_RANGE else written + nw;
      }
      AskOrShut();
    }

    /** The write and what follows it. */
    method WriteMore(counts: seq<nat>, gives: seq<nat>, fails: bool, goaway: bool)
      requires Valid() && |counts| == |gives|
      modifies this
      ensures Valid() && View() == Continued(plan, old(View()), WriteOutcome(counts, gives, fails, goaway))
    {
      var nw := WritePlain(counts, gives, fails);
      Settle(nw, goaway && fails);
    }

    /** http_server_on_write, reader mode. */
    method OnWriteCallback(headersOk: bool, timerOk: bool, counts: seq<nat>, gives: seq<nat>, fails: bool, goaway: bool)
      requires Valid() && wantWrite && !closed && !exited && |counts| == |gives|
      modifies this
      ensures Valid()
      ensures View() == Step(plan, old(View()), OnWrite(headersOk, timerOk, WriteOutcome(counts, gives, fails, goaway)))
    {
      if !headersSent {
        SendHeaders(headersOk);
        return;
      }
      var left := BytesLeft();
      if left == 0 {
        AskOrShut();
        return;
      }
      if plan.delay && !delayed && written > DELAY_AFTER {
        if timerOk {
          waiting := true;
          wantWrite := false;
          delayed := true;
          return;
        }
      }
      WriteMore(counts, gives, fails, goaway);
    }

    method ResumeResponse()
      requires Valid() && waiting && !closed && !exited
      modifies this
      ensures Valid() && View() == Step(plan, old(View()), Resume)
    {
      wantWrite := true;
      waiting := false;
    }
  }
}
