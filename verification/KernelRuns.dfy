/** The kernel map over whole runs of connection events. */
module KernelRuns {
  import opened Common
  import opened Address
  import opened KernelQuota
  import opened Connections

  /** `order` lists the peers that ever opened a connection, by first opening. */
  datatype Kernel = Kernel(counters: Counters, live: Live, order: seq<Ipv4>)

  const EMPTY_KERNEL := Kernel(map[], map[], [])

  function KernelStep(s: Kernel, e: Event): Kernel {
    if !Enabled(s.live, e) then s
    else match e
      case Open(id, peer) =>
        Kernel(IncCounter(s.counters, peer),
               s.live[id := Conn(peer, true)],
               if peer in s.order then s.order else s.order + [peer])
      case Close(id) =>
        Kernel(DecCounter(s.counters, s.live[id].peer), s.live - {id}, s.order)
  }

  function KernelAfter(run: Run<Event>): Kernel {
    match run
    case Start => EMPTY_KERNEL
    case Then(before, e) => KernelStep(KernelAfter(before), e)
  }

  function Admissible(order: seq<Ipv4>): seq<Ipv4> {
    order[..Min(MAX_ENTRIES, |order|)]
  }

  ghost predicate Exact(s: Kernel) {
    && NoDup(s.order)
    && (forall k :: k in s.counters <==> k in Admissible(s.order))
    && (forall k :: k in s.counters ==> s.counters[k] == Count(s.live, FromPeer(k)))
    && (forall id :: id in s.live ==> s.live[id].peer in s.order)
  }

  lemma KeyCount(s: Kernel)
    requires NoDup(s.order) && forall k :: k in s.counters <==> k in Admissible(s.order)
    ensures |s.counters| == Min(MAX_ENTRIES, |s.order|)
  {
    NoDupCardinality(Admissible(s.order));
    assert s.counters.Keys == set x | x in Admissible(s.order);
    assert |s.counters| == |s.counters.Keys|;
  }

  lemma KeysAfterOpen(s: Kernel, id: nat, peer: Ipv4, k: Ipv4)
    requires Exact(s) && id !in s.live
    ensures var t := KernelStep(s, Open(id, peer)); k in t.counters <==> k in Admissible(t.order)
  {
    KeyCount(s);
    var t := KernelStep(s, Open(id, peer));
    if peer !in s.order {
      assert Admissible(t.order) == Admissible(s.order) + if |s.order| < MAX_ENTRIES then [peer] else [];
    }
  }

  lemma CountAfterOpen(s: Kernel, id: nat, peer: Ipv4, k: Ipv4)
    requires Exact(s) && id !in s.live
    ensures var t := KernelStep(s, Open(id, peer));
      k in t.counters ==> t.counters[k] == Count(t.live, FromPeer(k))
  {
    CountOpen(s.live, id, Conn(peer, true), FromPeer(k));
    if k !in s.counters && k == peer {
      KeyCount(s);
      if |s.counters| < MAX_ENTRIES {
        assert Admissible(s.order) == s.order;
        CountNone(s.live, FromPeer(k));
      }
    }
  }

  lemma ExactAfterOpen(s: Kernel, id: nat, peer: Ipv4)
    requires Exact(s) && id !in s.live
    ensures Exact(KernelStep(s, Open(id, peer)))
  {
    var t := KernelStep(s, Open(id, peer));
    forall k: Ipv4
      ensures k in t.counters <==> k in Admissible(t.order)
      ensures k in t.counters ==> t.counters[k] == Count(t.live, FromPeer(k))
    {
      KeysAfterOpen(s, id, peer, k);
      CountAfterOpen(s, id, peer, k);
    }
  }

  lemma ExactAfterClose(s: Kernel, id: nat)
    requires Exact(s) && id in s.live
    ensures Exact(KernelStep(s, Close(id)))
    ensures s.live[id].peer in s.counters ==> s.counters[s.live[id].peer] >= 1
  {
    var t := KernelStep(s, Close(id));
    CountSome(s.live, id, FromPeer(s.live[id].peer));
    forall k | k in t.counters
      ensures t.counters[k] == Count(t.live, FromPeer(k))
    {
      CountClose(s.live, id, FromPeer(k));
    }
  }

  lemma ExactStep(s: Kernel, e: Event)
    requires Exact(s)
    ensures Exact(KernelStep(s, e))
  {
    if Enabled(s.live, e) {
      match e
      case Open(id, peer) => ExactAfterOpen(s, id, peer);
      case Close(id) => ExactAfterClose(s, id);
    }
  }

  lemma {:induction false} ExactAlways(run: Run<Event>)
    ensures Exact(KernelAfter(run))
  {
    if run.Then? {
      ExactAlways(run.before);
      ExactStep(KernelAfter(run.before), run.last);
    }
  }

  lemma AdmissibleIsFirst(order: seq<Ipv4>, k: Ipv4)
    ensures k in Admissible(order) <==> exists i :: 0 <= i < |order| && i < MAX_ENTRIES && order[i] == k
  {
    var a := Admissible(order);
    assert forall i :: 0 <= i < |a| ==> a[i] == order[i];
  }

  /** Every key counts its peer's live connections; the keys are the first 1024 distinct peers;
      so a peer without a key either never opened or found the map full. */
  lemma {:induction false} KernelMapExact(run: Run<Event>, k: Ipv4)
    ensures var s := KernelAfter(run);
      && (k in s.counters ==> s.counters[k] == Count(s.live, FromPeer(k)))
      && (k in s.counters <==> exists i :: 0 <= i < |s.order| && i < 1024 && s.order[i] == k)
      && (k in s.order && k !in s.counters ==> |s.counters| == 1024)
      && (k !in s.order ==> Count(s.live, FromPeer(k)) == 0)
  {
    var s := KernelAfter(run);
    ExactAlways(run);
    KeyCount(s);
    AdmissibleIsFirst(s.order, k);
    if k !in s.order {
      CountNone(s.live, FromPeer(k));
    }
  }

  /** A matched close never meets a zero counter, so saturation never hides a connection. */
  lemma MatchedCloseDecrements(run: Run<Event>, id: nat)
    requires id in KernelAfter(run).live
    ensures var s := KernelAfter(run); var peer := s.live[id].peer;
      peer in s.counters ==> DecCounter(s.counters, peer) == s.counters[peer := s.counters[peer] - 1]
  {
    ExactAlways(run);
    ExactAfterClose(KernelAfter(run), id);
  }

  lemma {:induction false} OrderGrows(run: Run<Event>, later: Run<Event>)
    requires Extends(later, run)
    ensures KernelAfter(run).order <= KernelAfter(later).order
  {
    if later != run {
      OrderGrows(run, later.before);
    }
  }

  /** Keys are never lost, and a peer once turned away never gets one. */
  lemma KeysAreForever(run: Run<Event>, later: Run<Event>, k: Ipv4)
    requires Extends(later, run) && k in KernelAfter(run).order
    ensures k in KernelAfter(run).counters <==> k in KernelAfter(later).counters
  {
    ExactAlways(run);
    ExactAlways(later);
    OrderGrows(run, later);
    var before, after := KernelAfter(run).order, KernelAfter(later).order;
    var i :| 0 <= i < |before| && before[i] == k;
    assert after[i] == k;
    if k in Admissible(before) {
      assert Admissible(before)[i] == k;
      assert Admissible(after)[i] == k;
    }
  }
}
