/** The generated body: an endlessly repeated text, written into buffers chunk by chunk. */
module IdleText {
  import opened Common

  const UINT_RANGE := 0x1_0000_0000

  // ----- the specification: bytes of the repeated text -----

  /** A position folded into one copy of the text. */
  function Wrap(pos: nat, size: nat): (off: nat)
    requires size > 0
    ensures off < size
  {
    if pos < size then pos else Wrap(pos - size, size)
  }

  lemma {:induction false} WrapIsRemainder(pos: nat, size: nat) returns (quotient: nat)
    requires size > 0
    ensures pos == quotient * size + Wrap(pos, size)
  {
    if pos < size {
      quotient := 0;
    } else {
      var q := WrapIsRemainder(pos - size, size);
      quotient := q + 1;
    }
  }

  lemma {:induction false} WrapOfSum(x: nat, y: nat, size: nat)
    requires size > 0
    ensures Wrap(Wrap(x, size) + y, size) == Wrap(x + y, size)
  {
    if x >= size {
      WrapOfSum(x - size, y, size);
    }
  }

  /** Character i, counted from position `from`, of the endless repetition of `text`. */
  function At(text: string, from: nat, i: nat): char
    requires text != []
  {
    text[Wrap(from + i, |text|)]
  }

  function Cyclic(text: string, from: nat, n: nat): (s: string)
    requires text != []
    ensures |s| == n
  {
    if n == 0 then [] else Cyclic(text, from, n - 1) + [At(text, from, n - 1)]
  }

  lemma {:induction false} CyclicAt(text: string, from: nat, n: nat, i: nat)
    requires text != [] && i < n
    ensures Cyclic(text, from, n)[i] == At(text, from, i)
  {
    if i < n - 1 {
      CyclicAt(text, from, n - 1, i);
    }
  }

  /** Only the position within one copy of the text matters. */
  lemma AtWraps(text: string, from: nat, n: nat, i: nat)
    requires text != []
    ensures At(text, Wrap(from + n, |text|), i) == At(text, from, n + i)
  {
    WrapOfSum(from + n, i, |text|);
    assert from + n + i == from + (n + i);
  }

  /** Reading n and then `more` characters is reading n + more. */
  lemma {:induction false} ReadNext(text: string, from: nat, n: nat, more: nat)
    requires text != []
    ensures var off := Wrap(from + n, |text|);
      && Cyclic(text, from, n) + Cyclic(text, off, more) == Cyclic(text, from, n + more)
      && Wrap(off + more, |text|) == Wrap(from + (n + more), |text|)
  {
    var off := Wrap(from + n, |text|);
    WrapOfSum(from + n, more, |text|);
    assert from + n + more == from + (n + more);
    if more > 0 {
      ReadNext(text, from, n, more - 1);
      AtWraps(text, from, n, more - 1);
      assert Cyclic(text, from, n) + (Cyclic(text, off, more - 1) + [At(text, off, more - 1)])
          == (Cyclic(text, from, n) + Cyclic(text, off, more - 1)) + [At(text, off, more - 1)];
    }
  }

  /** The next t characters, if they lie within one copy, and where they leave the offset. */
  lemma Chunk(text: string, from: nat, p: nat, t: nat)
    requires text != [] && Wrap(from + p, |text|) + t <= |text|
    ensures forall i :: p <= i < p + t ==> At(text, from, i) == text[Wrap(from + p, |text|) + (i - p)]
    ensures Wrap(from + (p + t), |text|)
         == if Wrap(from + p, |text|) + t == |text| then 0 else Wrap(from + p, |text|) + t
  {
    var off := Wrap(from + p, |text|);
    WrapOfSum(from + p, t, |text|);
    assert from + p + t == from + (p + t);
    forall i | p <= i < p + t
      ensures At(text, from, i) == text[off + (i - p)]
    {
      AtWraps(text, from, p, i - p);
      assert Wrap(off + (i - p), |text|) == off + (i - p);
    }
  }

  // ----- when the copying loop ends -----

  /** The loop's variables: end - p, remain and idle_off. */
  datatype Loop = Loop(left: nat, remain: nat, off: nat)

  predicate Running(l: Loop) {
    l.left > 0 && l.remain > 0
  }

  /** The cast to unsigned. */
  function Cut32(n: nat): nat {
    Wrap(n, UINT_RANGE)
  }

  lemma {:induction false} WrapMinus(x: nat, n: nat, size: nat)
    requires size > 0 && n <= Wrap(x, size)
    ensures n <= x && Wrap(x - n, size) == Wrap(x, size) - n && (x >= size ==> x - n >= size)
  {
    if x >= size {
      WrapMinus(x - size, n, size);
    }
  }

  /** The next chunk; end - p is cut to 32 bits before it is compared. */
  function ToWrite(l: Loop, size: nat): nat
    requires l.off < size
  {
    Min(Min(Cut32(l.left), size - l.off), l.remain)
  }

  function LoopStep(l: Loop, size: nat): (t: Loop)
    requires l.off < size
    ensures t.off < size
  {
    var n := ToWrite(l, size);
    Loop(l.left - n, l.remain - n, if l.off + n == size then 0 else l.off + n)
  }

  function LoopAfter(l: Loop, size: nat, steps: nat): (t: Loop)
    requires l.off < size
    ensures t.off < size
  {
    if steps == 0 then l else LoopStep(LoopAfter(l, size, steps - 1), size)
  }

  /** What a caller of idle_read can check beforehand. */
  predicate Ends(left: nat, remain: nat) {
    left < UINT_RANGE || remain <= Cut32(left)
  }

  lemma EndsStep(l: Loop, size: nat)
    requires l.off < size && Running(l)
    ensures Ends(l.left, l.remain) <==> Ends(LoopStep(l, size).left, LoopStep(l, size).remain)
    ensures Ends(l.left, l.remain) ==> ToWrite(l, size) > 0
  {
    WrapMinus(l.left, ToWrite(l, size), UINT_RANGE);
  }

  lemma {:induction false} StillRunning(l: Loop, size: nat, steps: nat)
    requires l.off < size && !Ends(l.left, l.remain)
    ensures Running(LoopAfter(l, size, steps))
    ensures !Ends(LoopAfter(l, size, steps).left, LoopAfter(l, size, steps).remain)
  {
    if steps > 0 {
      StillRunning(l, size, steps - 1);
      EndsStep(LoopAfter(l, size, steps - 1), size);
    }
  }

  lemma {:induction false} StepFirst(l: Loop, size: nat, steps: nat)
    requires l.off < size
    ensures LoopAfter(LoopStep(l, size), size, steps) == LoopAfter(l, size, steps + 1)
  {
    if steps > 0 {
      StepFirst(l, size, steps - 1);
    }
  }

  lemma {:induction false} StopsInTime(l: Loop, size: nat) returns (steps: nat)
    requires l.off < size && Ends(l.left, l.remain)
    ensures !Running(LoopAfter(l, size, steps))
    decreases l.left
  {
    if Running(l) {
      EndsStep(l, size);
      var rest := StopsInTime(LoopStep(l, size), size);
      StepFirst(l, size, rest);
      steps := rest + 1;
    } else {
      steps := 0;
    }
  }

  /** The loop ends iff the buffer is under 4 GiB or what remains fits in the buffer's size modulo 4 GiB. */
  lemma LoopEndsExactlyWhen(l: Loop, size: nat)
    requires l.off < size
    ensures (exists steps :: !Running(LoopAfter(l, size, steps))) <==> Ends(l.left, l.remain)
    ensures Ends(l.left, l.remain) <==> l.left < 4294967296 || l.remain <= l.left % 4294967296
  {
    var q := WrapIsRemainder(l.left, UINT_RANGE);
    if Ends(l.left, l.remain) {
      var steps := StopsInTime(l, size);
    } else {
      forall steps: nat
        ensures Running(LoopAfter(l, size, steps))
      {
        StillRunning(l, size, steps);
      }
    }
  }

  /** A buffer of 4 GiB makes no progress when a byte remains. */
  lemma LoopCanHang(size: nat, steps: nat)
    requires size > 0
    ensures Running(LoopAfter(Loop(4294967296, 1, 0), size, steps))
  {
    assert Cut32(UINT_RANGE) == 0;
    StillRunning(Loop(UINT_RANGE, 1, 0), size, steps);
  }

  // ----- the generator -----

  /** A scatter buffer: `len` bytes of memory from `base`. */
  datatype Iovec = Iovec(base: nat, len: nat)

  predicate InBounds(iov: seq<Iovec>, size: nat) {
    forall i :: 0 <= i < |iov| ==> iov[i].base + iov[i].len <= size
  }

  predicate Disjoint(iov: seq<Iovec>) {
    forall i, j :: 0 <= i < j < |iov| ==>
      iov[i].base + iov[i].len <= iov[j].base || iov[j].base + iov[j].len <= iov[i].base
  }

  /** Bytes in the buffers before buffer i. */
  function StartOf(iov: seq<Iovec>, i: nat): nat
    requires i <= |iov|
  {
    if i == 0 then 0 else StartOf(iov, i - 1) + iov[i - 1].len
  }

  function TotalLen(iov: seq<Iovec>): nat {
    StartOf(iov, |iov|)
  }

  lemma {:induction false} StartIsSum(iov: seq<Iovec>, i: nat, lens: seq<nat>)
    requires i == |lens| <= |iov| && forall j :: 0 <= j < i ==> lens[j] == iov[j].len
    ensures StartOf(iov, i) == Sum(lens)
  {
    if i > 0 {
      StartIsSum(iov, i - 1, lens[..i - 1]);
    }
  }

  lemma {:induction false} StartsGrow(iov: seq<Iovec>, j: nat, i: nat)
    requires j < i <= |iov|
    ensures StartOf(iov, j) + iov[j].len <= StartOf(iov, i)
  {
    if j < i - 1 {
      StartsGrow(iov, j, i - 1);
    }
  }

  /** The first n characters held by the first i buffers, in list order. */
  function Gather(mem: string, iov: seq<Iovec>, i: nat, n: nat): string
    requires i <= |iov| && InBounds(iov, |mem|)
  {
    if i == 0 then []
    else
      var start, v := StartOf(iov, i - 1), iov[i - 1];
      if n <= start then Gather(mem, iov, i - 1, n)
      else Gather(mem, iov, i - 1, start) + mem[v.base..v.base + Min(n - start, v.len)]
  }

  /** Buffer j continues the text from where the buffers before it end, up to n characters in all. */
  ghost predicate Holds(mem: string, iov: seq<Iovec>, j: nat, text: string, from: nat, n: nat)
    requires text != [] && j < |iov| && InBounds(iov, |mem|)
  {
    forall k :: iov[j].base <= k < iov[j].base + iov[j].len && StartOf(iov, j) + (k - iov[j].base) < n
            ==> mem[k] == At(text, from, StartOf(iov, j) + (k - iov[j].base))
  }

  lemma {:induction false} PieceIsCyclic(mem: string, v: Iovec, text: string, from: nat, start: nat, n: nat)
    requires text != [] && v.base + v.len <= |mem| && start <= n <= start + v.len
    requires forall k :: v.base <= k < v.base + v.len && start + (k - v.base) < n ==>
               mem[k] == At(text, from, start + (k - v.base))
    ensures Cyclic(text, from, start) + mem[v.base..v.base + (n - start)] == Cyclic(text, from, n)
  {
    if n > start {
      PieceIsCyclic(mem, v, text, from, start, n - 1);
      var last := v.base + (n - 1 - start);
      assert mem[last] == At(text, from, n - 1);
      assert mem[v.base..last + 1] == mem[v.base..last] + [mem[last]];
    }
  }

  lemma {:induction false} GatherIsCyclic(mem: string, iov: seq<Iovec>, i: nat, text: string, from: nat, n: nat, m: nat)
    requires text != [] && i <= |iov| && InBounds(iov, |mem|) && m <= StartOf(iov, i) && m <= n
    requires forall j :: 0 <= j < i ==> Holds(mem, iov, j, text, from, n)
    ensures Gather(mem, iov, i, m) == Cyclic(text, from, m)
  {
    if i > 0 {
      var start := StartOf(iov, i - 1);
      GatherIsCyclic(mem, iov, i - 1, text, from, n, Min(m, start));
      if m > start {
        assert Holds(mem, iov, i - 1, text, from, n);
        PieceIsCyclic(mem, iov[i - 1], text, from, start, m);
      }
    }
  }

  /** m is m0 with n characters of the text, from position `from`, written at `base`. */
  ghost predicate Written(m: string, m0: string, base: nat, text: string, from: nat, n: nat)
    requires text != []
  {
    && |m| == |m0| && base + n <= |m|
    && (forall k :: base <= k < base + n ==> m[k] == At(text, from, k - base))
    && (forall k :: 0 <= k < |m| && !(base <= k < base + n) ==> m[k] == m0[k])
  }

  lemma WrittenNext(m0: string, m1: string, m2: string, base: nat, text: string, from: nat, p: nat, t: nat)
    requires text != [] && Written(m1, m0, base, text, from, p) && base + p + t <= |m0| == |m2|
    requires Wrap(from + p, |text|) + t <= |text|
    requires forall k :: base + p <= k < base + p + t ==> m2[k] == text[Wrap(from + p, |text|) + (k - (base + p))]
    requires forall k :: 0 <= k < |m2| && !(base + p <= k < base + p + t) ==> m2[k] == m1[k]
    ensures Written(m2, m0, base, text, from, p + t)
    ensures Wrap(from + (p + t), |text|)
         == if Wrap(from + p, |text|) + t == |text| then 0 else Wrap(from + p, |text|) + t
  {
    Chunk(text, from, p, t);
    forall k | base + p <= k < base + (p + t)
      ensures m2[k] == At(text, from, k - base)
    {
      assert p <= k - base < p + t;
    }
  }

  /** Filling buffer i leaves the earlier buffers holding what they must, and puts the next characters there. */
  lemma HoldsNext(before: string, after: string, iov: seq<Iovec>, i: nat, j: nat, text: string, from: nat, n: nat,
                  nr: nat)
    requires text != [] && j <= i < |iov| && |before| == |after| && InBounds(iov, |before|) && Disjoint(iov)
    requires nr <= iov[i].len && n <= StartOf(iov, i) && (nr > 0 ==> n == StartOf(iov, i))
    requires j < i ==> Holds(before, iov, j, text, from, n)
    requires Written(after, before, iov[i].base, text, Wrap(from + n, |text|), nr)
    ensures Holds(after, iov, j, text, from, n + nr)
  {
    var v, start := iov[j], StartOf(iov, j);
    forall k | v.base <= k < v.base + v.len && start + (k - v.base) < n + nr
      ensures after[k] == At(text, from, start + (k - v.base))
    {
      if j < i {
        StartsGrow(iov, j, i);
        assert after[k] == before[k];
      } else {
        AtWraps(text, from, n, k - v.base);
      }
    }
  }

  predicate InSome(iov: seq<Iovec>, i: nat, k: int)
    requires i <= |iov|
  {
    i > 0 && (InSome(iov, i - 1, k) || iov[i - 1].base <= k < iov[i - 1].base + iov[i - 1].len)
  }

  /** Memory outside the first i buffers is as it was. */
  ghost predicate KeptOutside(mem: string, mem0: string, iov: seq<Iovec>, i: nat)
    requires i <= |iov| && |mem| == |mem0|
  {
    forall k :: 0 <= k < |mem| && !InSome(iov, i, k) ==> mem[k] == mem0[k]
  }

  lemma KeptOutsideNext(mem0: string, before: string, after: string, iov: seq<Iovec>, i: nat, text: string, from: nat,
                        nr: nat)
    requires text != [] && i < |iov| && nr <= iov[i].len && |mem0| == |before|
    requires KeptOutside(before, mem0, iov, i) && Written(after, before, iov[i].base, text, from, nr)
    ensures KeptOutside(after, mem0, iov, i + 1)
  {
    forall k | 0 <= k < |after| && !InSome(iov, i + 1, k)
      ensures after[k] == mem0[k]
    {
      assert !InSome(iov, i, k);
    }
  }

  /** The first i buffers hold n characters of the text, and nothing else changed. */
  ghost predicate Scattered(mem: string, mem0: string, iov: seq<Iovec>, i: nat, text: string, from: nat, n: nat)
    requires text != [] && i <= |iov|
  {
    && |mem| == |mem0| && InBounds(iov, |mem|)
    && KeptOutside(mem, mem0, iov, i)
    && forall j :: 0 <= j < i ==> Holds(mem, iov, j, text, from, n)
  }

  lemma ScatteredNext(mem0: string, before: string, after: string, iov: seq<Iovec>, i: nat, text: string, from: nat,
                      n: nat, nr: nat)
    requires text != [] && i < |iov| && Disjoint(iov) && Scattered(before, mem0, iov, i, text, from, n)
    requires nr <= iov[i].len && n <= StartOf(iov, i) && (nr > 0 ==> n == StartOf(iov, i))
    requires Written(after, before, iov[i].base, text, Wrap(from + n, |text|), nr)
    ensures Scattered(after, mem0, iov, i + 1, text, from, n + nr)
  {
    var total := n + nr;
    KeptOutsideNext(mem0, before, after, iov, i, text, Wrap(from + n, |text|), nr);
    forall j | 0 <= j <= i
      ensures Holds(after, iov, j, text, from, total)
    {
      HoldsNext(before, after, iov, i, j, text, from, n, nr);
    }
  }

  /** What remains after `taken` bytes were asked for. */
  function Left(remain: nat, taken: nat): nat {
    remain - Min(taken, remain)
  }

  /** The loop ends in every buffer of the list, read one after the other. */
  predicate AllEnd(iov: seq<Iovec>, remain: nat) {
    forall i :: 0 <= i < |iov| ==> Ends(iov[i].len, Left(remain, StartOf(iov, i)))
  }

  class GenFile {
    const text: string
    var remain: nat
    var idleOff: nat

    ghost predicate Valid()
      reads this
    {
      idleOff < |text| < UINT_RANGE
    }

    constructor (text: string, remain: nat)
      requires 0 < |text| < UINT_RANGE
      ensures Valid() && this.text == text && this.remain == remain && idleOff == 0
    {
      this.text, this.remain, idleOff := text, remain, 0;
    }

    /** The chunk one round of the loop copies: progress, within this copy of the text. */
    method ChunkSize(left: nat) returns (towrite: nat)
      requires Valid() && Running(Loop(left, remain, idleOff)) && Ends(left, remain)
      ensures 0 < towrite == ToWrite(Loop(left, remain, idleOff), |text|)
      ensures Ends(left - towrite, remain - towrite)
    {
      EndsStep(Loop(left, remain, idleOff), |text|);
      towrite := Min(Cut32(left), |text| - idleOff);
      if towrite > remain {
        towrite := remain;
      }
    }

    /** idle_read into mem[base..base + count]. The last requires is exactly when the loop ends. */
    method IdleRead(mem: array<char>, base: nat, count: nat) returns (n: nat)
      requires Valid() && base + count <= mem.Length
      requires Ends(count, remain)
      modifies this, mem
      ensures Valid()
      ensures n == Min(count, old(remain)) && remain == old(remain) - n
      ensures idleOff == Wrap(old(idleOff) + n, |text|)
      ensures Written(mem[..], old(mem[..]), base, text, old(idleOff), n)
    {
      var p := 0;
      ghost var off0, mem0 := idleOff, mem[..];
      while p < count && remain > 0
        invariant 0 <= p <= count && remain == old(remain) - p && Valid()
        invariant idleOff == Wrap(off0 + p, |text|)
        invariant Ends(count - p, remain)
        invariant Written(mem[..], mem0, base, text, off0, p)
        decreases count - p
      {
        var towrite := ChunkSize(count - p);
        ghost var mem1 := mem[..];
        Memcpy(mem, base + p, text[idleOff..idleOff + towrite]);
        WrittenNext(mem0, mem1, mem[..], base, text, off0, p, towrite);
        idleOff := idleOff + towrite;
        if idleOff == |text| {
          idleOff := 0;
        }
        p := p + towrite;
        remain := remain - towrite;
      }
      n := p;
    }

    /** After the first i buffers: `nread` bytes out of the `remain0` there were, from offset `off0` on. */
    ghost predicate HasRead(mem: string, mem0: string, iov: seq<Iovec>, i: nat, off0: nat, remain0: nat, nread: nat)
      requires i <= |iov|
      reads this
    {
      && Valid()
      && nread == Min(StartOf(iov, i), remain0) && remain == remain0 - nread
      && idleOff == Wrap(off0 + nread, |text|)
      && Scattered(mem, mem0, iov, i, text, off0, nread)
    }

    /** One round of the scatter loop. */
    method ReadBuffer(mem: array<char>, iov: seq<Iovec>, i: nat, ghost mem0: string, ghost off0: nat,
                      ghost remain0: nat, nread: nat)
      returns (total: nat)
      requires i < |iov| && Disjoint(iov) && HasRead(mem[..], mem0, iov, i, off0, remain0, nread)
      requires Ends(iov[i].len, Left(remain0, StartOf(iov, i)))
      modifies this, mem
      ensures HasRead(mem[..], mem0, iov, i + 1, off0, remain0, total)
    {
      ghost var before := mem[..];
      var nr := IdleRead(mem, iov[i].base, iov[i].len);
      ReadNext(text, off0, nread, nr);
      ScatteredNext(mem0, before, mem[..], iov, i, text, off0, nread, nr);
      total := nread + nr;
    }

    lemma NothingRead(mem: string, iov: seq<Iovec>)
      requires Valid() && InBounds(iov, |mem|)
      ensures HasRead(mem, mem, iov, 0, idleOff, remain, 0)
    {
    }

    lemma AllRead(mem: string, mem0: string, iov: seq<Iovec>, off0: nat, remain0: nat, nread: nat)
      requires HasRead(mem, mem0, iov, |iov|, off0, remain0, nread)
      ensures Gather(mem, iov, |iov|, nread) == Cyclic(text, off0, nread)
    {
      GatherIsCyclic(mem, iov, |iov|, text, off0, nread, nread);
    }

    /** my_interop_preadv: scatter reads into a list of disjoint buffers, in each of which the loop must end. */
    method InteropPreadv(mem: array<char>, iov: seq<Iovec>) returns (nread: nat)
      requires Valid() && InBounds(iov, mem.Length) && Disjoint(iov)
      requires AllEnd(iov, remain)
      modifies this, mem
      ensures Valid()
      ensures nread == Min(TotalLen(iov), old(remain)) && remain == old(remain) - nread
      ensures idleOff == Wrap(old(idleOff) + nread, |text|)
      ensures Gather(mem[..], iov, |iov|, nread) == Cyclic(text, old(idleOff), nread)
      ensures KeptOutside(mem[..], old(mem[..]), iov, |iov|)
    {
      nread := 0;
      ghost var off0, remain0, mem0 := idleOff, remain, mem[..];
      NothingRead(mem0, iov);
      for i := 0 to |iov|
        invariant HasRead(mem[..], mem0, iov, i, off0, remain0, nread)
      {
        nread := ReadBuffer(mem, iov, i, mem0, off0, remain0, nread);
      }
      AllRead(mem[..], mem0, iov, off0, remain0, nread);
    }
  }

  /** Two reads are one longer read, whatever the split: positions and characters alike. */
  lemma ReadsCompose(text: string, off: nat, remain: nat, c1: nat, c2: nat)
    requires off < |text|
    ensures var n1 := Min(c1, remain); var n2 := Min(c2, remain - n1); var n := Min(c1 + c2, remain);
      && n1 + n2 == n
      && Cyclic(text, off, n1) + Cyclic(text, Wrap(off + n1, |text|), n2) == Cyclic(text, off, n)
      && Wrap(Wrap(off + n1, |text|) + n2, |text|) == Wrap(off + n, |text|)
  {
    var n1 := Min(c1, remain);
    ReadNext(text, off, n1, Min(c2, remain - n1));
  }
}
