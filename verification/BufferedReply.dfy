/** Replies held in a buffer: errors, the index page, the echoed headers and the MD5 page. */
module BufferedReply {
  import opened Common
  import opened Wire

  datatype State = State(headersSent: bool, off: nat, aborted: bool, wire: Wire)

  /** One on_write callback: whether sending headers would succeed, and what a write would return: None for
      an error, otherwise how much the engine takes. */
  datatype WriteCall = WriteCall(headersOk: bool, takes: Option<nat>)

  const BEFORE := State(false, 0, false, SILENT)

  /** The result of sending headers is ignored: they count as sent. After a shutdown or abort the engine makes
      no further write callback: a stutter. */
  function Step(status: string, buf: string, s: State, call: WriteCall): State
    requires s.off <= |buf|
  {
    if s.aborted || s.wire.fin then s
    else if !s.headersSent then
      s.(headersSent := true, wire := if call.headersOk then SendHead(s.wire, Head(status, Some(|buf|))) else s.wire)
    else if call.takes.None? then s.(aborted := true)
    else
      var n := Min(call.takes.value, |buf| - s.off);
      var wire := Write(s.wire, buf[s.off..s.off + n]);
      s.(off := s.off + n, wire := if s.off + n == |buf| then Shutdown(wire) else wire)
  }

  function After(status: string, buf: string, run: Run<WriteCall>): (s: State)
    ensures s.off <= |buf|
  {
    match run
    case Start => BEFORE
    case Then(before, call) => Step(status, buf, After(status, buf, before), call)
  }

  /** What the first callback's headers came to; true when there was none. */
  predicate HeadersWentOut(run: Run<WriteCall>) {
    match run
    case Start => true
    case Then(before, call) => if before.Start? then call.headersOk else HeadersWentOut(before)
  }

  /** Under every schedule of partial writes and errors: the body is the first `off` characters, and the send
      side is shut exactly when all of them went out. The headers go out once or not at all, announcing the
      buffer's length; headers come before body if and only if they were sent, or nothing was written. */
  lemma {:induction false} WholeReply(status: string, buf: string, run: Run<WriteCall>)
    requires buf != []
    ensures var s := After(status, buf, run); var w := s.wire;
      && w.promises == []
      && w.body == buf[..s.off]
      && (s.headersSent <==> run.Then?)
      && w.head == (if run.Then? && HeadersWentOut(run) then Some(Head(status, Some(|buf|))) else None)
      && (!s.headersSent ==> s.off == 0 && w.writes == 0)
      && (w.writes == 0 ==> s.off == 0)
      && (w.ordered <==> HeadersWentOut(run) || w.writes == 0)
      && (w.fin <==> |w.body| == |buf|)
  {
    if run.Then? {
      WholeReply(status, buf, run.before);
      var s := After(status, buf, run.before);
      if run.last.takes.Some? {
        var n := Min(run.last.takes.value, |buf| - s.off);
        assert buf[..s.off] + buf[s.off..s.off + n] == buf[..s.off + n];
      }
    }
  }

  /** A reply whose headers failed is sent and ended all the same. */
  lemma HeadersCanBeMissing(status: string)
    ensures var run := Then(Then(Start, WriteCall(false, None)), WriteCall(true, Some(1)));
      var w := After(status, "x", run).wire;
      w.head.None? && w.body == "x" && w.fin && !w.ordered
  {
    var failed := Then(Start, WriteCall(false, None));
    assert After(status, "x", failed) == BEFORE.(headersSent := true);
    assert "x"[0..1] == "x";
    assert After(status, "x", Then(failed, WriteCall(true, Some(1)))).wire.body == [] + "x";
  }

  lemma {:induction false} OffsetOnlyGrows(status: string, buf: string, run: Run<WriteCall>, later: Run<WriteCall>)
    requires Extends(later, run)
    ensures After(status, buf, run).off <= After(status, buf, later).off
  {
    if later != run {
      OffsetOnlyGrows(status, buf, run, later.before);
    }
  }

  /** What one more callback does, at any point of any run: nothing after the end or an abort, then the headers, then
      as many bytes as the engine takes, or the abort. */
  lemma {:induction false} OneMoreCall(status: string, buf: string, run: Run<WriteCall>, call: WriteCall)
    requires buf != []
    ensures var s, t := After(status, buf, run), After(status, buf, Then(run, call));
      if s.aborted || s.wire.fin then t == s
      else if run.Start? then t.wire.body == [] && !t.aborted && (call.headersOk <==> t.wire.head != None)
      else if call.takes == None then t.aborted && t.wire == s.wire
      else
        && !t.aborted
        && |t.wire.body| - |s.wire.body|
           == (if call.takes.value < |buf| - |s.wire.body| then call.takes.value else |buf| - |s.wire.body|)
        && (t.wire.fin <==> |t.wire.body| == |buf|)
  {
    WholeReply(status, buf, run);
    WholeReply(status, buf, Then(run, call));
  }

  predicate Willing(run: Run<WriteCall>) {
    run.Then? ==> Willing(run.before) && run.last.headersOk && run.last.takes.Some? && run.last.takes.value > 0
  }

  lemma {:induction false} EveryCallCounts(status: string, buf: string, run: Run<WriteCall>)
    requires buf != [] && Willing(run)
    ensures var s := After(status, buf, run);
      && !s.aborted && HeadersWentOut(run)
      && (s.wire.fin || if run.Start? then !s.headersSent else s.headersSent && s.off + 1 >= Length(run))
  {
    if run.Then? {
      EveryCallCounts(status, buf, run.before);
    }
  }

  /** If the headers go out and every write takes at least a byte, one callback for the headers and one a byte
      complete the reply. */
  lemma Completes(status: string, buf: string, run: Run<WriteCall>)
    requires buf != [] && Willing(run) && Length(run) >= 1 + |buf|
    ensures var w := After(status, buf, run).wire;
      w.ordered && w.head == Some(Head(status, Some(|buf|))) && w.body == buf && w.fin
  {
    EveryCallCounts(status, buf, run);
    WholeReply(status, buf, run);
  }

  /** struct resp and the reply branch of http_server_interop_on_write. */
  class Reply {
    const status: string
    const buf: string
    const sz: nat
    var off: nat
    var headersSent: bool
    var aborted: bool
    var wire: Wire

    ghost predicate Valid()
      reads this
    {
      sz == |buf| && off <= sz
    }

    ghost function View(): State
      reads this
    {
      State(headersSent, off, aborted, wire)
    }

    constructor (status: string, buf: string)
      ensures Valid() && View() == BEFORE && this.status == status && this.buf == buf
    {
      this.status, this.buf, sz, off, headersSent, aborted, wire := status, buf, |buf|, 0, false, false, SILENT;
    }

    /** `headersOk`: send_headers2 returns 0; `nw` is what lsquic_stream_write returns. */
    method OnWrite(headersOk: bool, nw: int)
      requires Valid() && sz > 0 && !aborted && !wire.fin
      requires nw <= sz - off
      modifies this
      ensures Valid()
      ensures View() == Step(status, buf, old(View()), WriteCall(headersOk, if nw < 0 then None else Some(nw)))
    {
      if !headersSent {
        if headersOk {
          wire := SendHead(wire, Head(status, Some(sz)));
        }
        headersSent := true;
        return;
      }
      if nw < 0 {
        aborted := true;
        return;
      }
      wire := Write(wire, buf[off..off + nw]);
      off := off + nw;
      if off == sz {
        wire := Shutdown(wire);
      }
    }
  }
}
