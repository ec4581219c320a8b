/** The echo server's stream: bytes in one at a time, lines out. */
module EchoStream {
  import opened Common

  const BUF_SIZE := 0x100
  const NEWLINE := '\n'

  // ----- the specification over a whole input -----

  /** Characters before the first newline. */
  function LineLength(s: string): (n: nat)
    ensures n <= |s|
    ensures forall i :: 0 <= i < n ==> s[i] != NEWLINE
    ensures n < |s| ==> s[n] == NEWLINE
  {
    if s == [] || s[0] == NEWLINE then 0 else 1 + LineLength(s[1..])
  }

  /** The complete lines of the input, in order, up to the first run of 256 characters without newline. */
  function EchoOf(input: string): string
    decreases |input|
  {
    var n := LineLength(input);
    if n < |input| && n < BUF_SIZE then input[..n + 1] + EchoOf(input[n + 1..]) else []
  }

  lemma LineLengthIs(s: string, n: nat)
    requires n <= |s| && (forall i :: 0 <= i < n ==> s[i] != NEWLINE) && (n < |s| ==> s[n] == NEWLINE)
    ensures LineLength(s) == n
  {
  }

  predicate IsLine(s: string) {
    0 < |s| <= BUF_SIZE && s[|s| - 1] == NEWLINE && NEWLINE !in s[..|s| - 1]
  }

  lemma EchoOfLineAnd(line: string, rest: string)
    requires IsLine(line)
    ensures EchoOf(line + rest) == line + EchoOf(rest)
  {
    var n, input := |line| - 1, line + rest;
    assert forall i :: 0 <= i < n ==> input[i] == line[..n][i];
    LineLengthIs(input, n);
    assert input[..n + 1] == line && input[n + 1..] == rest;
  }

  /** The limits in numbers: a line of up to 256 characters, its newline the last, is echoed whatever follows; 256
      without a newline end the echo, and so does the end of the input before a newline. */
  lemma EchoInNumbers(line: string, rest: string)
    ensures 0 < |line| <= 256 && line[|line| - 1] == '\n' && '\n' !in line[..|line| - 1] ==>
              EchoOf(line + rest) == line + EchoOf(rest)
    ensures |line| >= 256 && '\n' !in line[..256] ==> EchoOf(line + rest) == []
    ensures '\n' !in line ==> EchoOf(line) == []
  {
    if 0 < |line| <= 256 && line[|line| - 1] == '\n' && '\n' !in line[..|line| - 1] {
      EchoOfLineAnd(line, rest);
    }
    if |line| >= 256 && '\n' !in line[..256] {
      assert forall i :: 0 <= i < 256 ==> (line + rest)[i] == line[..256][i];
      assert LineLength(line + rest) >= 256;
    }
    if '\n' !in line {
      LineLengthIs(line, |line|);
    }
  }

  /** Input that is echoed whole starts with a line, and what follows is echoed whole. */
  lemma FirstLine(whole: string) returns (line: string, tail: string)
    requires EchoOf(whole) == whole != []
    ensures whole == line + tail && IsLine(line) && EchoOf(tail) == tail
  {
    var n := LineLength(whole);
    line, tail := whole[..n + 1], whole[n + 1..];
    assert line + EchoOf(tail) == whole == line + tail;
    assert (line + EchoOf(tail))[n + 1..] == EchoOf(tail) && (line + tail)[n + 1..] == tail;
  }

  lemma Assoc(a: string, b: string, c: string)
    ensures (a + b) + c == a + (b + c)
  {
  }

  /** Input that is echoed whole does not affect what is echoed of the rest. */
  lemma {:induction false} EchoAppend(whole: string, rest: string)
    requires EchoOf(whole) == whole
    ensures EchoOf(whole + rest) == whole + EchoOf(rest)
    decreases |whole|
  {
    if whole == [] {
      assert whole + rest == rest;
    } else {
      var line, tail := FirstLine(whole);
      EchoAppend(tail, rest);
      EchoOfLineAnd(line, tail + rest);
      Assoc(line, tail, rest);
      Assoc(line, tail, EchoOf(rest));
    }
  }

  // ----- the protocol -----

  /** `consumed` is what the handler took for input, `input` what was read; `done` is the part of `consumed` before
      the bytes now buffered; `short`: some write took less than it was given. */
  datatype State = State(done: string, buf: string, wantRead: bool, wantWrite: bool, shut: bool,
                         consumed: string, input: string, output: string, short: bool)

  /** What a one-byte read gives: a byte, the end of input, or -1, which leaves in the buffer what was there. */
  datatype ReadResult = Byte(c: char) | End | Error(stale: char)

  /** on_read, and on_write with the number of bytes taken. */
  datatype Event = Read(result: ReadResult) | Write(taken: nat)

  const OPENED := State([], [], true, false, false, [], [], [], false)

  /** The code only asks whether a read gave 0, so a failed one counts as a byte. */
  function Take(s: State, c: char): State {
    var t := s.(buf := s.buf + [c], consumed := s.consumed + [c]);
    if c == NEWLINE then t.(wantWrite := true, wantRead := false)
    else if |t.buf| == BUF_SIZE then t.(shut := true)
    else t
  }

  /** Callbacks not asked for, or on a stream shut down, do not come: a stutter. */
  function Step(s: State, e: Event): State {
    match e
    case Read(result) =>
      if s.shut || !s.wantRead then s
      else (match result
            case Byte(c) => Take(s, c).(input := s.input + [c])
            case End => s.(shut := true)
            case Error(stale) => Take(s, stale))
    case Write(taken) =>
      if s.shut || !s.wantWrite then s
      else
        var n := Min(taken, |s.buf|);
        s.(done := s.done + s.buf, buf := [], wantWrite := false, wantRead := true,
           output := s.output + s.buf[..n], short := s.short || n < |s.buf|)
  }

  function After(run: Run<Event>): State {
    match run
    case Start => OPENED
    case Then(before, e) => Step(After(before), e)
  }

  ghost predicate Inv(s: State) {
    && s.consumed == s.done + s.buf
    && |s.input| <= |s.consumed|
    && (s.done != [] ==> s.done[|s.done| - 1] == NEWLINE)
    && EchoOf(s.done) == s.done
    && (if s.short then |s.output| < |s.done| else s.output == s.done)
    && (if s.wantWrite then IsLine(s.buf) && !s.wantRead && !s.shut
        else s.wantRead && NEWLINE !in s.buf && |s.buf| <= BUF_SIZE && (!s.shut ==> |s.buf| < BUF_SIZE))
  }

  lemma EchoOfLine(line: string)
    requires IsLine(line)
    ensures EchoOf(line) == line
  {
    EchoOfLineAnd(line, []);
    assert line + [] == line && EchoOf([]) == [];
  }

  lemma EchoOfPartial(part: string)
    requires NEWLINE !in part
    ensures EchoOf(part) == []
  {
    LineLengthIs(part, |part|);
  }

  lemma LineFrom(part: string)
    requires NEWLINE !in part && |part| < BUF_SIZE
    ensures IsLine(part + [NEWLINE])
  {
    assert (part + [NEWLINE])[..|part|] == part;
  }

  lemma {:induction false} InvTake(s: State, c: char)
    requires Inv(s) && !s.shut && s.wantRead
    ensures Inv(Take(s, c))
  {
    assert s.done + s.buf + [c] == s.done + (s.buf + [c]);
    if c == NEWLINE {
      LineFrom(s.buf);
    }
  }

  lemma InvWrite(s: State, taken: nat)
    requires Inv(s) && !s.shut && s.wantWrite
    ensures Inv(Step(s, Write(taken)))
  {
    EchoOfLine(s.buf);
    EchoAppend(s.done, s.buf);
    assert s.done + s.buf + [] == s.done + s.buf;
    assert s.buf[..|s.buf|] == s.buf;
  }

  lemma {:induction false} InvAlways(run: Run<Event>)
    ensures Inv(After(run))
  {
    if run.Then? {
      InvAlways(run.before);
      var s := After(run.before);
      match run.last
      case Read(result) =>
        if !s.shut && s.wantRead && !result.End? {
          InvTake(s, if result.Byte? then result.c else result.stale);
        }
      case Write(taken) =>
        if !s.shut && s.wantWrite {
          InvWrite(s, taken);
        }
    } else {
      assert EchoOf([]) == [];
    }
  }

  /** No read of the run failed that was asked for. */
  predicate EveryReadWorked(run: Run<Event>) {
    run.Then? ==>
      && EveryReadWorked(run.before)
      && var s := After(run.before);
        !s.shut && s.wantRead && run.last.Read? ==> !run.last.result.Error?
  }

  /** The handler takes for input what was read, if and only if no read failed. */
  lemma {:induction false} ConsumesTheInput(run: Run<Event>)
    ensures var s := After(run);
      if EveryReadWorked(run) then s.consumed == s.input else |s.input| < |s.consumed|
  {
    if run.Then? {
      ConsumesTheInput(run.before);
    }
  }

  /** For every input and schedule: what went out, with the line waiting to go, is the echo of what was taken for input,
      if and only if the engine took every write whole; the stream waits for a read or for a write, never
      both; a write is due for one whole line, and a byte that is asked for has room. */
  lemma {:induction false} EchoRefines(run: Run<Event>)
    ensures var s := After(run); var waiting := if s.wantWrite then s.buf else [];
      s.output + waiting == EchoOf(s.consumed) <==> !s.short
    ensures var s := After(run);
      && s.wantRead != s.wantWrite
      && (s.wantWrite ==> IsLine(s.buf))
      && (!s.shut && s.wantRead ==> |s.buf| < BUF_SIZE)
  {
    InvAlways(run);
    var s := After(run);
    EchoAppend(s.done, s.buf);
    if s.wantWrite {
      EchoOfLine(s.buf);
    } else {
      EchoOfPartial(s.buf);
    }
  }

  /** A stream shut for a full buffer loses nothing: whatever else the input would have been, its echo is what went
      out, if and only if the engine took every write whole. */
  lemma {:induction false} FullBufferLosesNothing(run: Run<Event>, rest: string)
    requires After(run).shut && |After(run).buf| == BUF_SIZE
    ensures After(run).output == EchoOf(After(run).consumed + rest) <==> !After(run).short
  {
    InvAlways(run);
    var s := After(run);
    assert LineLength(s.buf + rest) >= BUF_SIZE;
    assert EchoOf(s.buf + rest) == [];
    EchoAppend(s.done, s.buf + rest);
    Assoc(s.done, s.buf, rest);
  }

  // ----- when the stream ends, and what a whole input gets -----

  /** Some read that was asked for met the end of the input. */
  predicate EndCame(run: Run<Event>) {
    run.Then? &&
      (EndCame(run.before)
       || (var s := After(run.before); !s.shut && s.wantRead && run.last == Read(End)))
  }

  predicate Full(s: State) {
    |s.buf| == 256 && !s.wantWrite
  }

  /** The buffer is full of a line without end exactly when the last 256 bytes hold no newline. */
  lemma LastOfConsumed(s: State)
    requires Inv(s)
    ensures var n := |s.consumed|;
      (n >= 256 && '\n' !in s.consumed[n - 256..]) <==> Full(s)
  {
    var n := |s.consumed|;
    if n >= 256 {
      var tail := s.consumed[n - 256..];
      if |s.buf| < 256 && s.done != [] {
        assert tail[255 - |s.buf|] == s.done[|s.done| - 1];
      } else if |s.buf| == 256 {
        assert tail == s.buf;
        if s.wantWrite {
          assert tail[255] == NEWLINE;
        }
      }
    }
  }

  lemma {:induction false} ShutStep(s: State, e: Event)
    requires Inv(s)
    ensures Step(s, e).shut <==> s.shut || (s.wantRead && e == Read(End)) || Full(Step(s, e))
    ensures s.shut && Full(s) ==> Full(Step(s, e))
    ensures !s.shut ==> !Full(s)
  {
  }

  lemma {:induction false} ShutIs(run: Run<Event>)
    ensures After(run).shut <==> EndCame(run) || Full(After(run))
  {
    if run.Then? {
      ShutIs(run.before);
      InvAlways(run.before);
      ShutStep(After(run.before), run.last);
    }
  }

  lemma {:induction false} WaitsFor(s: State)
    requires Inv(s) && !s.shut
    ensures (s.wantWrite <==> s.buf != [] && s.buf[|s.buf| - 1] == '\n') && s.wantRead == !s.wantWrite
  {
  }

  /** The stream is shut if and only if the end was read, or 256 bytes without a newline came last; and as long as it
      is not, it waits for a write if a line is complete, else for a read. */
  lemma {:induction false} ShutExactlyWhen(run: Run<Event>)
    ensures var s := After(run); var n := |s.consumed|;
      && (s.shut <==> EndCame(run) || (n >= 256 && '\n' !in s.consumed[n - 256..]))
      && (!s.shut ==> (s.wantWrite <==> s.buf != [] && s.buf[|s.buf| - 1] == '\n') && s.wantRead == !s.wantWrite)
  {
    InvAlways(run);
    ShutIs(run);
    LastOfConsumed(After(run));
    if !After(run).shut {
      WaitsFor(After(run));
    }
  }

  /** The engine makes the callback that is waited for, with this input, without failures or short writes. */
  predicate Serves(input: string, s: State, e: Event) {
    if s.shut then true
    else match e
      case Read(Byte(c)) => s.wantRead && s.input + [c] <= input
      case Read(End) => s.wantRead && s.input == input
      case Read(Error(_)) => false
      case Write(taken) => s.wantWrite && taken >= |s.buf|
  }

  predicate ServedBy(input: string, run: Run<Event>) {
    run.Then? ==> ServedBy(input, run.before) && Serves(input, After(run.before), run.last)
  }

  lemma {:induction false} ServedIs(input: string, run: Run<Event>)
    requires ServedBy(input, run)
    ensures var s := After(run);
      && s.consumed == s.input <= input && !s.short
      && (!s.shut ==> |s.consumed| + |s.done| >= Length(run))
      && (EndCame(run) ==> s.input == input)
  {
    if run.Then? {
      ServedIs(input, run.before);
      InvAlways(run.before);
    }
  }

  function NextCallback(input: string, s: State): Event {
    if s.wantWrite then Write(|s.buf|)
    else if |s.input| < |input| then Read(Byte(input[|s.input|]))
    else Read(End)
  }

  lemma {:induction false} NextServes(input: string, s: State)
    requires Inv(s) && s.input <= input
    ensures Serves(input, s, NextCallback(input, s))
  {
    if |s.input| < |input| {
      assert s.input + [input[|s.input|]] == input[..|s.input| + 1];
    }
  }

  /** Such a run goes on: there is always a callback to make. */
  lemma {:induction false} AlwaysServable(input: string, run: Run<Event>)
    requires ServedBy(input, run)
    ensures exists e :: ServedBy(input, Then(run, e))
  {
    ServedIs(input, run);
    InvAlways(run);
    NextServes(input, After(run));
    assert ServedBy(input, Then(run, NextCallback(input, After(run))));
  }

  lemma {:induction false} EndedRunEchoes(input: string, run: Run<Event>)
    requires ServedBy(input, run) && EndCame(run) && After(run).shut
    ensures After(run).output == EchoOf(input)
  {
    ServedIs(input, run);
    EchoRefines(run);
    InvAlways(run);
  }

  lemma {:induction false} FullRunEchoes(input: string, run: Run<Event>)
    requires ServedBy(input, run) && After(run).shut && |After(run).buf| == BUF_SIZE
    ensures After(run).output == EchoOf(input)
  {
    var s := After(run);
    ServedIs(input, run);
    FullBufferLosesNothing(run, input[|s.input|..]);
    assert s.input + input[|s.input|..] == input;
  }

  /** A whole input: once twice as many callbacks were made as it has bytes, and one more, the stream is shut, and
      what went out is the input's echo. */
  lemma {:induction false} EchoesTheWholeInput(input: string, run: Run<Event>)
    requires ServedBy(input, run) && Length(run) > 2 * |input|
    ensures After(run).shut && After(run).output == EchoOf(input)
  {
    ServedIs(input, run);
    InvAlways(run);
    ShutExactlyWhen(run);
    if EndCame(run) {
      EndedRunEchoes(input, run);
    } else {
      LastOfConsumed(After(run));
      FullRunEchoes(input, run);
    }
  }

  // ----- the callbacks -----

  class Stream {
    const buf: array<char>
    var bufOff: nat
    var wantRead: bool
    var wantWrite: bool
    var shut: bool
    var output: string
    ghost var eof: bool
    ghost var done: string
    ghost var consumed: string
    ghost var input: string
    ghost var short: bool

    /** The read that meets the end of input has already moved the offset. */
    ghost predicate Bounded()
      reads this
    {
      buf.Length == BUF_SIZE && bufOff <= BUF_SIZE && (eof ==> bufOff > 0)
    }

    ghost function View(): State
      requires Bounded()
      reads this, buf
    {
      State(done, buf[..if eof then bufOff - 1 else bufOff], wantRead, wantWrite, shut, consumed, input, output, short)
    }

    /** In particular a byte that is asked for has room. */
    ghost predicate Valid()
      reads this
    {
      Bounded() && (eof ==> shut) && (wantRead && !shut ==> bufOff < BUF_SIZE)
    }

    constructor ()
      ensures Valid() && fresh(buf) && View() == OPENED
    {
      buf := new char[BUF_SIZE];
      bufOff, wantRead, wantWrite, shut, output := 0, true, false, false, [];
      eof, done, consumed, input, short := false, [], [], [], false;
    }

    /** lsquic_stream_read of one byte into buf + buf_off++: the offset moves whatever the read gives, and the result
        is kept in a size_t. */
    method ReadByte(result: ReadResult) returns (nr: nat)
      requires bufOff < buf.Length && (result.Error? ==> result.stale == buf[bufOff])
      modifies this`bufOff, buf
      ensures bufOff == old(bufOff) + 1 && (nr == 0 <==> result.End?)
      ensures buf[..bufOff - 1] == old(buf[..bufOff])
      ensures !result.End? ==> buf[bufOff - 1] == if result.Byte? then result.c else result.stale
    {
      if result.Byte? {
        buf[bufOff] := result.c;
      }
      bufOff := bufOff + 1;
      nr := if result.Byte? then 1 else if result.End? then 0 else SIZE_RANGE - 1;
    }

    /** echo_server_on_read; `result` is what a one-byte read gives. */
    method OnRead(result: ReadResult)
      requires Valid() && wantRead && !shut && (result.Error? ==> result.stale == buf[bufOff])
      modifies this, buf
      ensures Valid() && View() == Step(old(View()), Read(result))
    {
      ghost var before := View();
      var nr := ReadByte(result);
      if nr == 0 {
        shut, eof := true, true;
        return;
      }
      assert buf[..bufOff] == before.buf + [buf[bufOff - 1]];
      consumed := consumed + [buf[bufOff - 1]];
      input := if result.Byte? then input + [result.c] else input;
      if buf[bufOff - 1] == NEWLINE {
        wantWrite, wantRead := true, false;
      } else if bufOff == BUF_SIZE {
        shut := true;
      }
      assert View() == Step(before, Read(result));
    }

    /** echo_server_on_write; `taken` is what the write returns. */
    method OnWrite(taken: nat)
      requires Valid() && wantWrite && !shut && taken <= bufOff
      modifies this
      ensures Valid() && View() == Step(old(View()), Write(taken))
    {
      ghost var before := View();
      output := output + buf[..taken];
      assert buf[..taken] == before.buf[..taken];
      short := short || taken < bufOff;
      done := done + buf[..bufOff];
      bufOff := 0;
      wantWrite, wantRead := false, true;
      assert View() == Step(before, Write(taken));
    }
  }
}
