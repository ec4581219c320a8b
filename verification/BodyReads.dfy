/** Reading a request body: the digest of one that comes in pieces, and the comparison of one with the headers. */
module BodyReads {
  import opened Common

  // ----- the MD5 handler -----

  /** One call of read_md5. */
  datatype Piece = Piece(bytes: string, fin: bool)

  /** One lsquic_stream_readf: what it hands to the callback, and whether it then fails. */
  datatype Readf = Readf(pieces: seq<Piece>, fails: bool)

  /** The bytes fed to the digest so far; a failing read ends the program. */
  datatype Md5 = Md5(hashed: string, done: bool, exited: bool)

  const UNREAD := Md5([], false, false)

  function Bytes(pieces: seq<Piece>): string {
    if pieces == [] then [] else Bytes(pieces[..|pieces| - 1]) + pieces[|pieces| - 1].bytes
  }

  predicate AnyFin(pieces: seq<Piece>) {
    pieces != [] && (AnyFin(pieces[..|pieces| - 1]) || pieces[|pieces| - 1].fin)
  }

  lemma {:induction false} AnyFinIs(pieces: seq<Piece>)
    ensures AnyFin(pieces) <==> exists i :: 0 <= i < |pieces| && pieces[i].fin
  {
    if pieces != [] {
      AnyFinIs(pieces[..|pieces| - 1]);
      if AnyFin(pieces[..|pieces| - 1]) {
        var i :| 0 <= i < |pieces| - 1 && pieces[..|pieces| - 1][i].fin;
        assert pieces[i].fin;
      }
    }
  }

  lemma {:induction false} BytesOfConcat(xs: seq<Piece>, ys: seq<Piece>)
    ensures Bytes(xs + ys) == Bytes(xs) + Bytes(ys)
  {
    if ys == [] {
      assert xs + ys == xs;
    } else {
      BytesOfConcat(xs, ys[..|ys| - 1]);
      assert (xs + ys)[..|xs + ys| - 1] == xs + ys[..|ys| - 1];
    }
  }

  lemma BytesOfOne(p: Piece)
    ensures Bytes([p]) == p.bytes
  {
    assert [p][..0] == [] && Bytes([]) == [];
  }

  /** One on_read callback; once done, the read side is shut and there is no further one: a stutter. */
  function Step(s: Md5, read: Readf): Md5 {
    if s.done || s.exited then s
    else Md5(s.hashed + Bytes(read.pieces),
             AnyFin(read.pieces) || (!read.fails && Bytes(read.pieces) == []),
             read.fails)
  }

  function After(run: Run<Readf>): Md5 {
    match run
    case Start => UNREAD
    case Then(before, read) => Step(After(before), read)
  }

  /** All bytes the engine handed out. */
  function Got(run: Run<Readf>): string {
    match run
    case Start => []
    case Then(before, read) => Got(before) + Bytes(read.pieces)
  }

  /** The engine's side: the body in order, its end marked or an empty read only when all of it is out. */
  predicate FromBody(body: string, run: Run<Readf>) {
    run.Then? ==>
      && FromBody(body, run.before)
      && Got(run) <= body
      && (AnyFin(run.last.pieces) || (!run.last.fails && Bytes(run.last.pieces) == []) ==> Got(run) == body)
  }

  /** In whatever pieces the body comes, what is hashed in the end is the body, and unless a read fails the end
      comes within one read a byte and one more. */
  lemma {:induction false} HashesTheBody(body: string, run: Run<Readf>)
    requires FromBody(body, run)
    ensures var s := After(run);
      && s.hashed <= body
      && (s.done ==> s.hashed == body)
      && (!s.done && !s.exited ==> s.hashed == Got(run) && |s.hashed| >= Length(run))
      && (Length(run) > |body| ==> s.done || s.exited)
  {
    if run.Then? {
      HashesTheBody(body, run.before);
    }
  }

  /** The program ends by a read that fails, and by nothing else. */
  predicate SomeReadFailed(run: Run<Readf>) {
    run.Then? && (SomeReadFailed(run.before) || (!After(run.before).done && run.last.fails))
  }

  lemma {:induction false} ExitsExactlyWhen(run: Run<Readf>)
    ensures After(run).exited <==> SomeReadFailed(run)
  {
    if run.Then? {
      ExitsExactlyWhen(run.before);
    }
  }

  /** The end is a piece that is marked, or a read that gives nothing and does not fail; not before. */
  lemma OneMoreRead(run: Run<Readf>, read: Readf)
    requires !After(run).done && !After(run).exited
    ensures var s, t := After(run), After(Then(run, read));
      && t.hashed == s.hashed + Bytes(read.pieces)
      && (t.done <==> (exists i :: 0 <= i < |read.pieces| && read.pieces[i].fin)
                      || (Bytes(read.pieces) == [] && !read.fails))
  {
    AnyFinIs(read.pieces);
  }

  class Md5Reader {
    var hashed: string
    var done: bool
    var exited: bool

    ghost function View(): Md5
      reads this
    {
      Md5(hashed, done, exited)
    }

    constructor ()
      ensures View() == UNREAD
    {
      hashed, done, exited := [], false, false;
    }

    /** read_md5, except that the bytes are kept where the source keeps their digest. */
    method ReadMd5(bytes: string, fin: bool) returns (taken: nat)
      modifies this`hashed, this`done
      ensures hashed == old(hashed) + bytes && done == (old(done) || fin) && taken == |bytes|
    {
      if |bytes| > 0 {
        hashed := hashed + bytes;
      }
      if fin {
        done := true;
      }
      taken := |bytes|;
    }

    /** What lsquic_stream_readf does with the callback. */
    method FeedAll(pieces: seq<Piece>) returns (nw: nat)
      modifies this`hashed, this`done
      ensures hashed == old(hashed) + Bytes(pieces) && done == (old(done) || AnyFin(pieces)) && nw == |Bytes(pieces)|
    {
      nw := 0;
      for i := 0 to |pieces|
        invariant hashed == old(hashed) + Bytes(pieces[..i])
        invariant done == (old(done) || AnyFin(pieces[..i])) && nw == |Bytes(pieces[..i])|
      {
        assert pieces[..i + 1][..i] == pieces[..i];
        var taken := ReadMd5(pieces[i].bytes, pieces[i].fin);
        nw := nw + taken;
      }
      assert pieces[..|pieces|] == pieces;
    }

    /** The MD5 case of on_read. */
    method OnRead(read: Readf)
      requires !done && !exited
      modifies this
      ensures View() == Step(old(View()), read)
    {
      var nw := FeedAll(read.pieces);
      if read.fails {
        exited := true;
        return;
      }
      if nw == 0 {
        done := true;
      }
    }
  }

  // ----- the header-echo handler -----

  /** What the handler says of the body; `received` is what it had got of the body when it compared. */
  datatype Verdict = TooShort | TooLong | Compared(received: string)

  /** `reqSz`: how much of the body the handler believes to have; `exited`: a failing read ended the program. */
  datatype Check = Check(reqSz: nat, received: string, verdict: Option<Verdict>, exited: bool)

  const UNCHECKED := Check(0, [], None, false)

  /** How many bytes the next read asks for: all that is missing, or one to see whether there is more. */
  function Asks(qifSz: nat, s: Check): nat {
    if s.reqSz < qifSz then qifSz - s.reqSz else 1
  }

  /** One on_read callback; None is a read that fails. Any nonempty read counts as all that was asked for, and any
      byte, or a failure, after that as too much. The verdict comes with the shutdown of the read side: after it, no
      further callback. */
  function CheckStep(qifSz: nat, s: Check, read: Option<string>): Check {
    if s.verdict.Some? || s.exited then s
    else if s.reqSz < qifSz then
      match read
      case None => s.(exited := true)
      case Some(bytes) =>
        if bytes == [] then s.(verdict := Some(TooShort)) else s.(reqSz := qifSz, received := s.received + bytes)
    else s.(verdict := Some(if read == Some([]) then Compared(s.received) else TooLong))
  }

  function CheckAfter(qifSz: nat, run: Run<Option<string>>): Check {
    match run
    case Start => UNCHECKED
    case Then(before, read) => CheckStep(qifSz, CheckAfter(qifSz, before), read)
  }

  /** All bytes the engine handed out. */
  function Handed(run: Run<Option<string>>): string {
    match run
    case Start => []
    case Then(before, read) => Handed(before) + if read.Some? then read.value else []
  }

  /** The engine's side: no read fails or gives more than it is asked for, the bytes are the body's in order, and
      an empty read comes only when all of it is out. */
  predicate Supplies(qifSz: nat, body: string, run: Run<Option<string>>) {
    run.Then? ==>
      && Supplies(qifSz, body, run.before)
      && run.last.Some?
      && |run.last.value| <= Asks(qifSz, CheckAfter(qifSz, run.before))
      && Handed(run) <= body
      && (run.last.value == [] ==> Handed(run) == body)
  }

  /** The first read's result. */
  function First(run: Run<Option<string>>): Option<string>
    requires run.Then?
  {
    if run.before.Then? then First(run.before) else run.last
  }

  /** What the first read gave. */
  function FirstRead(run: Run<Option<string>>): string {
    match run
    case Start => []
    case Then(before, read) => if before.Then? then FirstRead(before) else if read.Some? then read.value else []
  }

  /** The verdict on a body whose first read gives `first`. */
  function VerdictOf(qifSz: nat, body: string, first: string): Verdict {
    if qifSz == 0 then (if body == [] then Compared([]) else TooLong)
    else if body == [] then TooShort
    else if first == body then Compared(first)
    else TooLong
  }

  /** The verdict its messages describe. */
  function Wanted(qifSz: nat, body: string): Verdict {
    if |body| < qifSz then TooShort else if |body| > qifSz then TooLong else Compared(body)
  }

  /** The verdict comes by the second read, whatever the body and however it is cut, and only the first read decides
      it. */
  lemma {:induction false} RepliesByTheSecondRead(qifSz: nat, body: string, run: Run<Option<string>>)
    requires Supplies(qifSz, body, run)
    ensures var s := CheckAfter(qifSz, run);
      && !s.exited
      && (Length(run) >= 2 ==> s.verdict.Some?)
      && (Length(run) == 1 ==> (s.verdict.Some? <==> run.last == Some([]) || qifSz == 0))
      && (s.verdict.Some? ==> s.verdict.value == VerdictOf(qifSz, body, FirstRead(run)))
      && (s.verdict.None? ==> s.received == Handed(run) && (if run.Then? then s.reqSz == qifSz > 0 else s == UNCHECKED))
      && (s.verdict.None? && run.Then? ==> Handed(run) == FirstRead(run) && FirstRead(run) != [])
      && (run.Then? && qifSz > 0 ==> |FirstRead(run)| <= qifSz)
      && (run.Then? ==> FirstRead(run) <= body)
  {
    if run.Then? {
      RepliesByTheSecondRead(qifSz, body, run.before);
    }
  }

  /** The program ends if and only if the first read fails while there is text to compare with; a failing second read
      is taken for a byte too many. */
  lemma {:induction false} CheckExitsExactlyWhen(qifSz: nat, run: Run<Option<string>>)
    ensures CheckAfter(qifSz, run).exited <==> qifSz > 0 && run.Then? && First(run) == None
    ensures Length(run) == 2 && run.last == None
              && !CheckAfter(qifSz, run.before).exited && CheckAfter(qifSz, run.before).verdict == None ==>
              CheckAfter(qifSz, run).verdict == Some(TooLong)
    ensures run.Then? && qifSz > 0 && First(run) != None && First(run) != Some([]) ==>
              CheckAfter(qifSz, run).reqSz == qifSz
  {
    if run.Then? {
      CheckExitsExactlyWhen(qifSz, run.before);
    }
  }

  /** The verdict is the one described if and only if the body is empty or too long, or its first read gives as many
      bytes as there are in the echoed text. */
  lemma {:induction false} VerdictIsRightExactlyWhen(qifSz: nat, body: string, run: Run<Option<string>>)
    requires Supplies(qifSz, body, run) && CheckAfter(qifSz, run).verdict.Some?
    ensures CheckAfter(qifSz, run).verdict.value == Wanted(qifSz, body)
       <==> body == [] || |body| > qifSz || |FirstRead(run)| == qifSz
  {
    RepliesByTheSecondRead(qifSz, body, run);
  }

  /** Bodies of the right size that come in two pieces are called too long, bodies that are too short are compared. */
  lemma {:induction false} WrongVerdicts(body: string, cut: nat, missing: nat)
    requires 0 < cut < |body| && missing > 0
    ensures var run := Then(Then(Start, Some(body[..cut])), Some(body[cut..cut + 1]));
      Supplies(|body|, body, run) && CheckAfter(|body|, run).verdict == Some(TooLong)
    ensures var run := Then(Then(Start, Some(body)), Some([]));
      Supplies(|body| + missing, body, run) && CheckAfter(|body| + missing, run).verdict == Some(Compared(body))
  {
    var first := Then(Start, Some(body[..cut]));
    assert Handed(first) == body[..cut];
    assert Handed(Then(first, Some(body[cut..cut + 1]))) == body[..cut + 1];
    assert CheckAfter(|body|, first) == Check(|body|, body[..cut], None, false);
    var whole := Then(Start, Some(body));
    assert Handed(whole) == body && Handed(Then(whole, Some([]))) == body;
    assert CheckAfter(|body| + missing, whole) == Check(|body| + missing, body, None, false);
  }

  class BodyChecker {
    const qif: string
    const reqBody: array<char>
    var reqSz: nat
    var replying: bool
    var exited: bool
    ghost var got: nat
    ghost var verdict: Option<Verdict>

    ghost predicate Valid()
      reads this
    {
      && reqBody.Length == |qif| && got <= reqSz && (reqSz == 0 || reqSz == |qif|)
      && (replying <==> verdict.Some?)
    }

    ghost function View(): Check
      requires Valid()
      reads this, reqBody
    {
      Check(reqSz, reqBody[..got], verdict, exited)
    }

    /** The body's buffer is allocated with whatever is in it. */
    constructor (qif: string)
      ensures Valid() && fresh(reqBody) && View() == UNCHECKED && this.qif == qif
    {
      this.qif, reqSz, replying, exited, got, verdict := qif, 0, false, false, 0, None;
      reqBody := new char[|qif|];
    }

    /** The header-echo case of on_read. `same` is what memcmp finds, over the whole buffer, filled or not. */
    method OnRead(read: Option<string>) returns (same: bool)
      requires Valid() && !replying && !exited && (read.Some? ==> |read.value| <= Asks(|qif|, View()))
      modifies this, reqBody
      ensures Valid() && View() == CheckStep(|qif|, old(View()), read)
      ensures verdict.Some? && verdict.value.Compared? ==> (same <==> reqBody[..] == qif)
      ensures verdict.Some? && verdict.value.Compared? && |verdict.value.received| == |qif| ==>
                (same <==> verdict.value.received == qif)
    {
      same := false;
      var need := |qif| - reqSz;
      if need > 0 {
        if read.None? {
          exited := true;
        } else if read.value != [] {
          Memcpy(reqBody, 0, read.value);
          assert reqBody[..|read.value|] == read.value;
          got := |read.value|;
          reqSz := reqSz + need;
        } else {
          replying, verdict := true, Some(TooShort);
        }
      } else {
        if read == Some([]) {
          same := reqBody[..] == qif;
        }
        replying, verdict := true, Some(if read == Some([]) then Compared(reqBody[..got]) else TooLong);
      }
    }
  }
}
