/** Saturating counters under arbitrary increments and decrements, matched or not. */
module Saturation {
  import opened Common
  import opened Address
  import opened UserQuota
  import opened KernelQuota

  datatype Op = Inc | Dec

  function Sat(ops: seq<Op>): int {
    if ops == [] then 0
    else
      var before := Sat(ops[..|ops| - 1]);
      if ops[|ops| - 1].Inc? then before + 1 else SatDec(before)
  }

  /** Increments minus decrements. */
  function Net(ops: seq<Op>): int {
    if ops == [] then 0
    else Net(ops[..|ops| - 1]) + if ops[|ops| - 1].Inc? then 1 else -1
  }

  ghost predicate IsMaxSuffixNet(ops: seq<Op>, v: int) {
    && (forall k :: 0 <= k <= |ops| ==> Net(ops[k..]) <= v)
    && exists k :: 0 <= k <= |ops| && Net(ops[k..]) == v
  }

  lemma SuffixSnoc(ops: seq<Op>, k: nat)
    requires k < |ops|
    ensures Net(ops[k..]) == Net(ops[..|ops| - 1][k..]) + if ops[|ops| - 1].Inc? then 1 else -1
  {
    assert ops[k..][..|ops| - k - 1] == ops[..|ops| - 1][k..];
  }

  /** The closed form: the counter is the best suffix, the empty one included. */
  lemma {:induction false} SatIsMaxSuffixNet(ops: seq<Op>)
    ensures IsMaxSuffixNet(ops, Sat(ops))
  {
    assert Net(ops[|ops|..]) == 0;
    if ops != [] {
      var init := ops[..|ops| - 1];
      SatIsMaxSuffixNet(init);
      forall k | 0 <= k < |ops|
        ensures Net(ops[k..]) == Net(init[k..]) + if ops[|ops| - 1].Inc? then 1 else -1
      {
        SuffixSnoc(ops, k);
      }
      var k :| 0 <= k <= |init| && Net(init[k..]) == Sat(init);
      assert Net(init[|init|..]) == 0;
      assert Net(ops[k..]) == Sat(ops) || Sat(ops) == 0;
    }
  }

  // ----- the two implementations, called in any order on any peers -----

  datatype Call = Call(op: Op, peer: Ipv4)

  function TableAfter(calls: seq<Call>): (t: seq<int>)
    ensures |t| == 256
  {
    if calls == [] then NoQuotas()
    else
      var t, c := TableAfter(calls[..|calls| - 1]), calls[|calls| - 1];
      t[c.peer.d := if c.op.Inc? then t[c.peer.d] + 1 else SatDec(t[c.peer.d])]
  }

  function MapAfter(calls: seq<Call>): Counters {
    if calls == [] then map[]
    else
      var m, c := MapAfter(calls[..|calls| - 1]), calls[|calls| - 1];
      if c.op.Inc? then IncCounter(m, c.peer) else DecCounter(m, c.peer)
  }

  function OpsWhere(calls: seq<Call>, f: Ipv4 -> bool): seq<Op> {
    if calls == [] then []
    else
      var c := calls[|calls| - 1];
      OpsWhere(calls[..|calls| - 1], f) + if f(c.peer) then [c.op] else []
  }

  function AtOctet(octet: int): Ipv4 -> bool {
    (p: Ipv4) => p.d == octet
  }

  function Exactly(peer: Ipv4): Ipv4 -> bool {
    (p: Ipv4) => p == peer
  }

  lemma {:induction false} TableIsSat(calls: seq<Call>, octet: Byte)
    ensures TableAfter(calls)[octet] == Sat(OpsWhere(calls, AtOctet(octet)))
  {
    if calls != [] {
      var init, c := calls[..|calls| - 1], calls[|calls| - 1];
      TableIsSat(init, octet);
      var ops := OpsWhere(init, AtOctet(octet));
      assert (ops + [c.op])[..|ops|] == ops;
      assert ops + [] == ops;
    }
  }

  lemma {:induction false} MapIsSat(calls: seq<Call>, peer: Ipv4)
    ensures var m := MapAfter(calls); var sat := Sat(OpsWhere(calls, Exactly(peer)));
      && |m| <= MAX_ENTRIES
      && (peer in m ==> m[peer] == sat >= 0)
      && (peer !in m && sat != 0 ==> |m| == MAX_ENTRIES)
  {
    if calls != [] {
      var init, c := calls[..|calls| - 1], calls[|calls| - 1];
      MapIsSat(init, peer);
      var ops := OpsWhere(init, Exactly(peer));
      assert (ops + [c.op])[..|ops|] == ops;
      assert ops + [] == ops;
    }
  }

  /** A slot is the best suffix of what was done to its octet. */
  lemma TableClosedForm(calls: seq<Call>, octet: Byte)
    ensures IsMaxSuffixNet(OpsWhere(calls, AtOctet(octet)), TableAfter(calls)[octet])
  {
    TableIsSat(calls, octet);
    SatIsMaxSuffixNet(OpsWhere(calls, AtOctet(octet)));
  }

  /** Some increment of this peer met a full map without its key. */
  predicate TurnedAway(calls: seq<Call>, peer: Ipv4) {
    calls != [] &&
      var init, c := calls[..|calls| - 1], calls[|calls| - 1];
      || TurnedAway(init, peer)
      || (c == Call(Inc, peer) && peer !in MapAfter(init) && |MapAfter(init)| >= MAX_ENTRIES)
  }

  /** Who was turned away stays so; who was not has a key or was never counted. */
  lemma {:induction false} TurnedAwayForGood(calls: seq<Call>, peer: Ipv4)
    ensures var m := MapAfter(calls);
      && (TurnedAway(calls, peer) ==> peer !in m && |m| == 1024)
      && (!TurnedAway(calls, peer) ==> CounterOf(m, peer) == Sat(OpsWhere(calls, Exactly(peer))))
  {
    MapIsSat(calls, peer);
    if calls != [] {
      var init, c := calls[..|calls| - 1], calls[|calls| - 1];
      TurnedAwayForGood(init, peer);
      MapIsSat(init, peer);
      var ops := OpsWhere(init, Exactly(peer));
      assert (ops + [c.op])[..|ops|] == ops;
      assert ops + [] == ops;
    }
  }

  /** So is a kernel counter, read as 0 when absent, exactly when its peer was not turned away by a full map
      or what it did comes to 0 anyway. */
  lemma MapClosedForm(calls: seq<Call>, peer: Ipv4)
    ensures var ops := OpsWhere(calls, Exactly(peer));
      IsMaxSuffixNet(ops, CounterOf(MapAfter(calls), peer)) <==> !TurnedAway(calls, peer) || Sat(ops) == 0
  {
    TurnedAwayForGood(calls, peer);
    SatIsMaxSuffixNet(OpsWhere(calls, Exactly(peer)));
  }

  /** One opening by each of the first n fillers. */
  function Fill(late: Ipv4, n: nat): seq<Call>
    requires n <= MAX_ENTRIES
  {
    if n == 0 then [] else Fill(late, n - 1) + [Call(Inc, Filler(late, n - 1))]
  }

  lemma IncSnoc(calls: seq<Call>, peer: Ipv4, late: Ipv4)
    ensures MapAfter(calls + [Call(Inc, peer)]) == IncCounter(MapAfter(calls), peer)
    ensures OpsWhere(calls + [Call(Inc, peer)], Exactly(late))
         == OpsWhere(calls, Exactly(late)) + if peer == late then [Inc] else []
  {
    assert (calls + [Call(Inc, peer)])[..|calls|] == calls;
  }

  lemma {:induction false} FillFills(late: Ipv4, n: nat)
    requires n <= MAX_ENTRIES
    ensures var m := MapAfter(Fill(late, n));
      |m| == n && late !in m && forall k :: n <= k < MAX_ENTRIES ==> Filler(late, k) !in m
    ensures OpsWhere(Fill(late, n), Exactly(late)) == []
  {
    if n > 0 {
      FillFills(late, n - 1);
      IncSnoc(Fill(late, n - 1), Filler(late, n - 1), late);
    }
  }

  /** A call list on which the formula fails: 1024 openings by others, then one of this peer. */
  lemma ClosedFormNeedsRoom(late: Ipv4)
    ensures var calls := Fill(late, MAX_ENTRIES) + [Call(Inc, late)]; var ops := OpsWhere(calls, Exactly(late));
      TurnedAway(calls, late) && CounterOf(MapAfter(calls), late) == 0 && Sat(ops) == 1
      && !IsMaxSuffixNet(ops, CounterOf(MapAfter(calls), late))
  {
    var full := Fill(late, MAX_ENTRIES);
    var calls := full + [Call(Inc, late)];
    FillFills(late, MAX_ENTRIES);
    IncSnoc(full, late, late);
    assert calls[..|calls| - 1] == full;
    assert Sat([Inc]) == 1 by {
      assert [Inc][..0] == [];
    }
    MapClosedForm(calls, late);
  }
}
