/** The generated-file reply: header block, then the repeated text, over any schedule of write callbacks. */
module GenStream {
  import opened Common
  import opened IdleText
  import opened Wire

  /** What the request fixed: the text and its length, the promises that go out with the headers, and
      whether it named an authority, without which no promise is made. */
  datatype Plan = Plan(text: string, status: string, size: nat, pushes: seq<string>, hasAuthority: bool)

  /** `exited`: a failing write ended the program. */
  datatype State = State(headersSent: bool, closed: bool, exited: bool, remain: nat, idleOff: nat, pushes: seq<string>,
                         wire: Wire)

  /** One on_write callback: whether sending headers would succeed, how many bytes the engine asks for through the
      scatter path (None when it is not in use) and, if that gave none, through the reader, and whether the write
      then fails. */
  datatype WriteCall = WriteCall(headersOk: bool, scatter: Option<nat>, reader: nat, fails: bool)

  function Pulled(scatter: Option<nat>, reader: nat, remain: nat): (n: nat)
    ensures n <= remain
  {
    var scattered := if scatter.Some? then Min(scatter.value, remain) else 0;
    if scattered > 0 then scattered else Min(reader, remain)
  }

  function Before(p: Plan): State {
    State(false, false, false, p.size, 0, p.pushes, SILENT)
  }

  /** A write that pulls n bytes. */
  function WriteStep(p: Plan, s: State, n: nat, fails: bool): State
    requires p.text != [] && n <= s.remain
  {
    var t := s.(remain := s.remain - n, idleOff := Wrap(s.idleOff + n, |p.text|));
    if fails then t.(exited := true)
    else
      var wire := Write(s.wire, Cyclic(p.text, s.idleOff, n));
      t.(wire := if t.remain == 0 then Shutdown(wire) else wire)
  }

  /** After a shutdown, a close or an exit the engine makes no further write callback: a stutter. */
  function Step(p: Plan, s: State, call: WriteCall): State
    requires p.text != []
  {
    if s.closed || s.exited || s.wire.fin then s
    else if !s.headersSent then
      var promised := if p.hasAuthority then s.(pushes := [], wire := Promise(s.wire, s.pushes)) else s;
      if call.headersOk
      then promised.(headersSent := true, wire := SendHead(promised.wire, Head(p.status, Some(s.remain))))
      else promised.(closed := true)
    else
      WriteStep(p, s, Pulled(call.scatter, call.reader, s.remain), call.fails)
  }

  function After(p: Plan, run: Run<WriteCall>): State
    requires p.text != []
  {
    match run
    case Start => Before(p)
    case Then(before, call) => Step(p, After(p, before), call)
  }

  /** The promises that are due before the headers. */
  function Promised(p: Plan): seq<string> {
    if p.hasAuthority then p.pushes else []
  }

  ghost predicate Inv(p: Plan, s: State)
    requires p.text != []
  {
    && s.wire.ordered
    && s.remain <= p.size
    && s.wire.body == Cyclic(p.text, 0, |s.wire.body|) && |s.wire.body| <= p.size
    && (!s.exited ==> s.idleOff == Wrap(p.size - s.remain, |p.text|) && |s.wire.body| == p.size - s.remain)
    && s.wire.head == (if s.headersSent then Some(Head(p.status, Some(p.size))) else None)
    && s.wire.promises == (if s.headersSent || s.closed then Promised(p) else [])
    && (!s.headersSent ==> s.remain == p.size && s.wire.writes == 0 && !s.exited)
    && (!s.headersSent && !s.closed ==> s.pushes == p.pushes)
    && (s.wire.fin <==> |s.wire.body| == p.size && s.wire.writes > 0)
  }

  lemma InvHeaders(p: Plan, s: State, call: WriteCall)
    requires p.text != [] && Inv(p, s) && !s.headersSent
    ensures Inv(p, Step(p, s, call))
  {
    assert [] + p.pushes == p.pushes;
  }

  lemma InvWrite(p: Plan, s: State, n: nat, fails: bool)
    requires p.text != [] && Inv(p, s) && s.headersSent && !s.exited && !s.wire.fin && n <= s.remain
    ensures Inv(p, WriteStep(p, s, n, fails))
  {
    ReadNext(p.text, 0, p.size - s.remain, n);
  }

  lemma InvBody(p: Plan, s: State, call: WriteCall)
    requires p.text != [] && Inv(p, s) && s.headersSent
    ensures Inv(p, Step(p, s, call))
  {
    if !s.exited && !s.wire.fin {
      InvWrite(p, s, Pulled(call.scatter, call.reader, s.remain), call.fails);
    }
  }

  lemma {:induction false} InvAlways(p: Plan, run: Run<WriteCall>)
    requires p.text != []
    ensures Inv(p, After(p, run))
  {
    if run.Then? {
      InvAlways(p, run.before);
      var s := After(p, run.before);
      if s.headersSent {
        InvBody(p, s, run.last);
      } else {
        InvHeaders(p, s, run.last);
      }
    }
  }

  /** Under every schedule: promises, then one header block announcing the size, then body; the body so
      far is a prefix of the repeated text; and once body was written, the send side is shut exactly
      when as many bytes went out as were announced. */
  lemma WholeBody(p: Plan, run: Run<WriteCall>)
    requires p.text != []
    ensures var w := After(p, run).wire;
      && w.ordered
      && w.body == Cyclic(p.text, 0, |w.body|) && |w.body| <= p.size
      && (w.head.Some? ==> w.head.value == Head(p.status, Some(p.size)) && w.promises == Promised(p))
      && (w.head.None? ==> w.body == [] && !w.fin)
      && (w.fin <==> |w.body| == p.size && w.writes > 0)
  {
    InvAlways(p, run);
  }

  /** What one more callback does, at any point of any run. Not yet at the headers: they go out, or the stream is
      closed. Past them: nothing if the reply has ended, else a write of as many bytes as the scatter path asks for, or
      the reader if that is not in use or asks for none, never more than are left; a failing write ends the program. */
  lemma {:induction false} OneMoreCall(p: Plan, run: Run<WriteCall>, call: WriteCall)
    requires p.text != []
    ensures var s, t := After(p, run), After(p, Then(run, call)); var left := p.size - |s.wire.body|;
      if s.closed || s.exited || s.wire.fin then t == s
      else if s.wire.head == None then
        && (call.headersOk ==> t.wire.head == Some(Head(p.status, Some(p.size))) && !t.closed)
        && (!call.headersOk ==> t.wire.head == None && t.closed)
        && t.wire.promises == (if p.hasAuthority then p.pushes else []) && t.wire.body == [] && !t.exited
      else
        && (call.fails ==> t.exited && t.wire == s.wire)
        && (!call.fails ==>
              && !t.exited && !t.closed
              && |t.wire.body| - |s.wire.body| ==
                 (if left == 0 then 0
                  else if call.scatter.Some? && call.scatter.value > 0
                  then (if call.scatter.value < left then call.scatter.value else left)
                  else if call.reader < left then call.reader else left)
              && (t.wire.fin <==> |t.wire.body| == p.size))
  {
    InvAlways(p, run);
    InvAlways(p, Then(run, call));
  }

  /** The engine sends headers when asked to, pulls at least a byte when it can, and does not fail. */
  predicate Willing(run: Run<WriteCall>) {
    run.Then? ==> Willing(run.before) && run.last.headersOk && run.last.reader > 0 && !run.last.fails
  }

  lemma {:induction false} EveryCallCounts(p: Plan, run: Run<WriteCall>)
    requires p.text != [] && Willing(run)
    ensures var s := After(p, run);
      && !s.closed && !s.exited
      && (s.wire.fin || if run.Start? then !s.headersSent else s.headersSent && |s.wire.body| + 1 >= Length(run))
  {
    if run.Then? {
      EveryCallCounts(p, run.before);
    }
  }

  /** With a willing engine the reply is complete after one callback for the headers and one a byte. */
  lemma Completes(p: Plan, run: Run<WriteCall>)
    requires p.text != [] && Willing(run) && Length(run) >= if p.size == 0 then 2 else 1 + p.size
    ensures After(p, run).wire.fin && After(p, run).wire.body == Cyclic(p.text, 0, p.size)
  {
    EveryCallCounts(p, run);
    WholeBody(p, run);
  }

  // ----- the callback itself -----

  /** Every chunk has room, and the reader's loop ends in each, read one after the other. */
  predicate ChunksEnd(chunks: seq<nat>, room: nat, remain: nat) {
    forall i :: 0 <= i < |chunks| ==> chunks[i] <= room && Ends(chunks[i], Left(remain, Sum(chunks[..i])))
  }

  /** The reader is used when the scatter path is not, or gave nothing. */
  predicate ReaderUsed(pwritev: bool, iov: seq<Iovec>, remain: nat) {
    pwritev ==> Min(TotalLen(iov), remain) == 0
  }

  /** What the engine asks for: disjoint buffers and chunks in bounds, in which the loop ends. */
  predicate CanPull(pwritev: bool, size: nat, iov: seq<Iovec>, room: nat, chunks: seq<nat>, remain: nat) {
    && InBounds(iov, size) && Disjoint(iov)
    && (pwritev ==> AllEnd(iov, remain))
    && (ReaderUsed(pwritev, iov, remain) ==> ChunksEnd(chunks, room, remain))
  }

  /** Asked for `asked` bytes, the reader gave `written` and stands at `off` with `remain` to go. */
  ghost predicate HasPulled(text: string, off0: nat, remain0: nat, asked: nat, written: string, off: nat, remain: int)
    requires text != []
  {
    && |written| == Min(asked, remain0) && remain == remain0 - |written|
    && off == Wrap(off0 + |written|, |text|)
    && written == Cyclic(text, off0, |written|)
  }

  lemma PulledNone(text: string, off0: nat, remain0: nat)
    requires off0 < |text|
    ensures HasPulled(text, off0, remain0, Sum([]), [], off0, remain0)
  {
  }

  lemma PulledMore(text: string, off0: nat, remain0: nat, asked: nat, written: string, count: nat, chunk: string)
    requires text != []
    requires |written| == Min(asked, remain0) && written == Cyclic(text, off0, |written|)
    requires |chunk| == Min(count, remain0 - |written|)
    requires chunk == Cyclic(text, Wrap(off0 + |written|, |text|), |chunk|)
    ensures HasPulled(text, off0, remain0, asked + count, written + chunk,
                      Wrap(Wrap(off0 + |written|, |text|) + |chunk|, |text|), remain0 - |written| - |chunk|)
  {
    ReadNext(text, off0, |written|, |chunk|);
  }

  class Stream {
    const plan: Plan
    const gfc: GenFile
    var pushPaths: seq<string>
    var headersSent: bool
    var closed: bool
    var exited: bool
    var wire: Wire

    ghost predicate Valid()
      reads this, gfc
    {
      gfc.Valid() && gfc.text == plan.text && (headersSent <==> wire.head.Some?)
    }

    ghost function View(): State
      reads this, gfc
    {
      State(headersSent, closed, exited, gfc.remain, gfc.idleOff, pushPaths, wire)
    }

    constructor (plan: Plan)
      requires 0 < |plan.text| < UINT_RANGE
      ensures Valid() && fresh(gfc) && this.plan == plan && View() == Before(plan)
    {
      this.plan := plan;
      gfc := new GenFile(plan.text, plan.size);
      pushPaths, headersSent, closed, exited, wire := plan.pushes, false, false, false, SILENT;
    }

    /** One pull of the reader. */
    method ReadChunk(buf: array<char>, count: nat) returns (chunk: string)
      requires Valid() && count <= buf.Length && Ends(count, gfc.remain)
      modifies gfc, buf
      ensures Valid()
      ensures |chunk| == Min(count, old(gfc.remain)) && gfc.remain == old(gfc.remain) - |chunk|
      ensures gfc.idleOff == Wrap(old(gfc.idleOff) + |chunk|, |plan.text|)
      ensures chunk == Cyclic(plan.text, old(gfc.idleOff), |chunk|)
    {
      ghost var from := gfc.idleOff;
      var n := gfc.IdleRead(buf, 0, count);
      PieceIsCyclic(buf[..], Iovec(0, n), plan.text, from, 0, n);
      chunk := buf[..n];
    }

    /** The next pull of a write. */
    method PullChunk(buf: array<char>, count: nat, ghost off0: nat, ghost remain0: nat, ghost asked: nat,
                     written: string)
      returns (more: string)
      requires Valid() && count <= buf.Length && Ends(count, gfc.remain)
      requires HasPulled(plan.text, off0, remain0, asked, written, gfc.idleOff, gfc.remain)
      modifies gfc, buf
      ensures Valid() && HasPulled(plan.text, off0, remain0, asked + count, more, gfc.idleOff, gfc.remain)
    {
      var chunk := ReadChunk(buf, count);
      PulledMore(plan.text, off0, remain0, asked, written, count, chunk);
      more := written + chunk;
    }

    /** lsquic_stream_writef with idle_read and idle_size: the engine pulls chunk after chunk. */
    method WriteFromReader(buf: array<char>, chunks: seq<nat>) returns (written: string)
      requires Valid() && ChunksEnd(chunks, buf.Length, gfc.remain)
      modifies gfc, buf
      ensures Valid()
      ensures |written| == Min(Sum(chunks), old(gfc.remain)) && gfc.remain == old(gfc.remain) - |written|
      ensures gfc.idleOff == Wrap(old(gfc.idleOff) + |written|, |plan.text|)
      ensures written == Cyclic(plan.text, old(gfc.idleOff), |written|)
    {
      written := [];
      ghost var off0, remain0 := gfc.idleOff, gfc.remain;
      PulledNone(plan.text, off0, remain0);
      assert chunks[..0] == [];
      for i := 0 to |chunks|
        invariant Valid()
        invariant HasPulled(plan.text, off0, remain0, Sum(chunks[..i]), written, gfc.idleOff, gfc.remain)
      {
        assert chunks[..i + 1][..i] == chunks[..i];
        written := PullChunk(buf, chunks[i], off0, remain0, Sum(chunks[..i]), written);
      }
      assert chunks[..|chunks|] == chunks;
    }

    /** lsquic_stream_pwritev with my_interop_preadv: what the buffers then hold. */
    method PullScattered(mem: array<char>, iov: seq<Iovec>) returns (written: string)
      requires Valid() && InBounds(iov, mem.Length) && Disjoint(iov) && AllEnd(iov, gfc.remain)
      modifies gfc, mem
      ensures Valid()
      ensures |written| == Min(TotalLen(iov), old(gfc.remain)) && gfc.remain == old(gfc.remain) - |written|
      ensures |written| == 0 ==> gfc.idleOff == old(gfc.idleOff)
      ensures gfc.idleOff == Wrap(old(gfc.idleOff) + |written|, |plan.text|)
      ensures written == Cyclic(plan.text, old(gfc.idleOff), |written|)
    {
      var nw := gfc.InteropPreadv(mem, iov);
      written := Gather(mem[..], iov, |iov|, nw);
    }

    /** The scatter path, then the reader if that gave nothing or is not in use. */
    method PullBody(pwritev: bool, mem: array<char>, iov: seq<Iovec>, buf: array<char>, chunks: seq<nat>)
      returns (written: string)
      requires Valid() && CanPull(pwritev, mem.Length, iov, buf.Length, chunks, gfc.remain)
      modifies gfc, mem, buf
      ensures Valid()
      ensures |written| == Pulled(if pwritev then Some(TotalLen(iov)) else None, Sum(chunks), old(gfc.remain))
      ensures gfc.remain == old(gfc.remain) - |written|
      ensures gfc.idleOff == Wrap(old(gfc.idleOff) + |written|, |plan.text|)
      ensures written == Cyclic(plan.text, old(gfc.idleOff), |written|)
    {
      if pwritev {
        written := PullScattered(mem, iov);
        if |written| == 0 {
          written := WriteFromReader(buf, chunks);
        }
      } else {
        written := WriteFromReader(buf, chunks);
      }
    }

    /** What follows the pulls of a write. */
    method WriteBody(written: string, fails: bool)
      modifies this`wire, this`exited
      ensures exited == (old(exited) || fails)
      ensures wire == if fails then old(wire)
                      else var w := Write(old(wire), written); if gfc.remain == 0 then Shutdown(w) else w
    {
      if fails {
        exited := true;
        return;
      }
      wire := Write(wire, written);
      if gfc.remain == 0 {
        wire := Shutdown(wire);
      }
    }

    method SendHeaders(headersOk: bool)
      modifies this`headersSent, this`closed, this`wire
      ensures headersSent == (old(headersSent) || headersOk) && closed == (old(closed) || !headersOk)
      ensures wire == if headersOk then SendHead(old(wire), Head(plan.status, Some(gfc.remain))) else old(wire)
    {
      if headersOk {
        wire := SendHead(wire, Head(plan.status, Some(gfc.remain)));
        headersSent := true;
      } else {
        closed := true;
      }
    }

    method SendPromises()
      requires wire.head.None?
      modifies this`pushPaths, this`wire
      ensures pushPaths == [] && wire == Promise(old(wire), old(pushPaths))
    {
      while pushPaths != []
        invariant wire.promises + pushPaths == old(wire.promises) + old(pushPaths)
        invariant wire == old(wire).(promises := wire.promises)
        decreases |pushPaths|
      {
        var path := pushPaths[0];
        pushPaths := pushPaths[1..];
        wire := Promise(wire, [path]);
      }
    }

    /** A later callback. */
    method SendMore(pwritev: bool, mem: array<char>, iov: seq<Iovec>, buf: array<char>, chunks: seq<nat>, fails: bool)
      requires Valid() && CanPull(pwritev, mem.Length, iov, buf.Length, chunks, gfc.remain)
      modifies this`wire, this`exited, gfc, mem, buf
      ensures Valid()
      ensures View() == WriteStep(plan, old(View()),
                                  Pulled(if pwritev then Some(TotalLen(iov)) else None, Sum(chunks), old(gfc.remain)),
                                  fails)
    {
      var written := PullBody(pwritev, mem, iov, buf, chunks);
      WriteBody(written, fails);
    }

    /** The first callback. */
    method SendStart(headersOk: bool)
      requires Valid() && !headersSent && !closed && !exited && !wire.fin
      modifies this`pushPaths, this`headersSent, this`closed, this`wire
      ensures Valid() && View() == Step(plan, old(View()), WriteCall(headersOk, None, 0, false))
    {
      if plan.hasAuthority {
        SendPromises();
      }
      SendHeaders(headersOk);
    }

    /** idle_on_write; `iov` into `mem` and `chunks` into `buf` are what the engine asks for before it fails
        or not. */
    method OnWrite(headersOk: bool, pwritev: bool, mem: array<char>, iov: seq<Iovec>, buf: array<char>,
                   chunks: seq<nat>,
                   fails: bool)
      requires Valid() && !closed && !exited && !wire.fin
      requires headersSent ==> CanPull(pwritev, mem.Length, iov, buf.Length, chunks, gfc.remain)
      modifies this, gfc, mem, buf
      ensures Valid()
      ensures View() == Step(plan, old(View()),
                             WriteCall(headersOk, if pwritev then Some(TotalLen(iov)) else None, Sum(chunks), fails))
    {
      if headersSent {
        SendMore(pwritev, mem, iov, buf, chunks, fails);
      } else {
        SendStart(headersOk);
      }
    }
  }
}
