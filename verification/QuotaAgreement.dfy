/** On one /24 network, and as long as nobody is refused, the two quota implementations agree. */
module QuotaAgreement {
  import opened Common
  import opened Address
  import opened UserQuota
  import opened KernelQuota
  import opened Connections
  import opened KernelRuns
  import opened UserRuns

  datatype Net = Net(a: Byte, b: Byte, c: Byte)

  function Host(net: Net, octet: Byte): Ipv4 {
    Ipv4(net.a, net.b, net.c, octet)
  }

  predicate InNet(net: Net, peer: Ipv4) {
    peer == Host(net, peer.d)
  }

  predicate OpensIn(net: Net, e: Event) {
    e.Open? ==> InNet(net, e.peer)
  }

  predicate AllOpenIn(net: Net, run: Run<Event>) {
    run.Then? ==> AllOpenIn(net, run.before) && OpensIn(net, run.last)
  }

  ghost predicate NobodyRefused(run: Run<Event>) {
    run.Then? ==> NobodyRefused(run.before) && !Refuses(UserAfter(run.before), run.last)
  }

  ghost predicate SlotsMatch(net: Net, u: User, k: Kernel)
    requires |u.quotas| == 256
  {
    forall octet: Byte :: u.quotas[octet] == CounterOf(k.counters, Host(net, octet))
  }

  ghost predicate Agree(net: Net, u: User, k: Kernel) {
    && |u.quotas| == 256
    && Exact(k)
    && u.live == k.live
    && (forall id :: id in u.live ==> u.live[id].admitted)
    && (forall p :: p in k.order ==> InNet(net, p))
    && SlotsMatch(net, u, k)
  }

  /** Pigeonhole: distinct numbers below n are at most n many. */
  lemma {:induction false} NoDupBelow(xs: seq<int>, n: nat)
    requires NoDup(xs) && forall i :: 0 <= i < |xs| ==> 0 <= xs[i] < n
    ensures |xs| <= n
  {
    if n > 0 {
      if n - 1 in xs {
        var i :| 0 <= i < |xs| && xs[i] == n - 1;
        NoDupBelow(xs[..i] + xs[i + 1..], n - 1);
      } else {
        NoDupBelow(xs, n - 1);
      }
    }
  }

  function Octets(peers: seq<Ipv4>): seq<int> {
    seq(|peers|, i requires 0 <= i < |peers| => peers[i].d)
  }

  /** A /24 network cannot fill the map. */
  lemma NetHasRoom(net: Net, k: Kernel)
    requires Exact(k) && forall p :: p in k.order ==> InNet(net, p)
    ensures |k.order| <= 256 && |k.counters| <= 256
    ensures forall p :: p in k.order <==> p in k.counters
  {
    var os := Octets(k.order);
    forall i | 0 <= i < |os|
      ensures k.order[i] == Host(net, os[i])
    {
      assert k.order[i] in k.order;
    }
    NoDupBelow(os, 256);
    KeyCount(k);
    assert Admissible(k.order) == k.order;
  }

  /** An admitted or refused opening, seen at the slot and the counter of one host. */
  lemma SlotsAfterOpen(net: Net, u: User, k: Kernel, id: nat, peer: Ipv4, octet: Byte)
    requires Agree(net, u, k) && InNet(net, peer) && id !in u.live
    ensures var e := Open(id, peer); var gap := if octet == peer.d && Refuses(u, e) then 1 else 0;
      CounterOf(KernelStep(k, e).counters, Host(net, octet)) == UserStep(u, e).quotas[octet] + gap
  {
    NetHasRoom(net, k);
    assert u.quotas[octet] == CounterOf(k.counters, Host(net, octet));
  }

  lemma AgreeAfterOpen(net: Net, u: User, k: Kernel, id: nat, peer: Ipv4)
    requires Agree(net, u, k) && InNet(net, peer) && id !in u.live
    ensures var e := Open(id, peer);
      && Exact(KernelStep(k, e))
      && (forall p :: p in KernelStep(k, e).order ==> InNet(net, p))
      && (SlotsMatch(net, UserStep(u, e), KernelStep(k, e)) <==> !Refuses(u, e))
  {
    var e := Open(id, peer);
    ExactAfterOpen(k, id, peer);
    forall octet: Byte
      ensures var gap := if octet == peer.d && Refuses(u, e) then 1 else 0;
        CounterOf(KernelStep(k, e).counters, Host(net, octet)) == UserStep(u, e).quotas[octet] + gap
    {
      SlotsAfterOpen(net, u, k, id, peer, octet);
    }
    assert CounterOf(KernelStep(k, e).counters, Host(net, peer.d)) != UserStep(u, e).quotas[peer.d] <==> Refuses(u, e);
  }

  lemma AgreeAfterClose(net: Net, u: User, k: Kernel, id: nat)
    requires Agree(net, u, k) && id in u.live
    ensures Agree(net, UserStep(u, Close(id)), KernelStep(k, Close(id)))
  {
    var peer := u.live[id].peer;
    ExactAfterClose(k, id);
    NetHasRoom(net, k);
    assert InNet(net, peer);
    var u', k' := UserStep(u, Close(id)), KernelStep(k, Close(id));
    forall octet: Byte
      ensures u'.quotas[octet] == CounterOf(k'.counters, Host(net, octet))
    {
      assert u.quotas[octet] == CounterOf(k.counters, Host(net, octet));
    }
  }

  /** From agreement, a step keeps the slots equal to the counters exactly when it refuses nobody. */
  lemma AgreementBreaksOnlyAtRefusal(net: Net, u: User, k: Kernel, e: Event)
    requires Agree(net, u, k) && OpensIn(net, e)
    ensures SlotsMatch(net, UserStep(u, e), KernelStep(k, e)) <==> !Refuses(u, e)
    ensures !Refuses(u, e) ==> Agree(net, UserStep(u, e), KernelStep(k, e))
  {
    if Enabled(u.live, e) {
      match e
      case Open(id, peer) => AgreeAfterOpen(net, u, k, id, peer);
      case Close(id) => AgreeAfterClose(net, u, k, id);
    }
  }

  lemma {:induction false} AgreeAlways(net: Net, run: Run<Event>)
    requires AllOpenIn(net, run) && NobodyRefused(run)
    ensures Agree(net, UserAfter(run), KernelAfter(run))
  {
    if run.Then? {
      AgreeAlways(net, run.before);
      AgreementBreaksOnlyAtRefusal(net, UserAfter(run.before), KernelAfter(run.before), run.last);
    }
  }

  /** Slot, counter and live count coincide, the map never fills, and the two verdicts are the same. */
  lemma {:induction false} QuotasAgree(net: Net, run: Run<Event>, octet: Byte, packet: Packet)
    requires AllOpenIn(net, run) && NobodyRefused(run)
    ensures var u, k, peer := UserAfter(run), KernelAfter(run), Host(net, octet);
      && u.quotas[octet] == CounterOf(k.counters, peer) == Count(k.live, FromPeer(peer))
      && |k.counters| <= 256
      && (IsUdpFrom(packet, peer) ==>
            (u.quotas[octet] >= QUOTA_LIMIT <==> UdpQuota(k.counters, packet) == Drop))
  {
    var u, k, peer := UserAfter(run), KernelAfter(run), Host(net, octet);
    AgreeAlways(net, run);
    NetHasRoom(net, k);
    KernelMapExact(run, peer);
    assert u.quotas[octet] == CounterOf(k.counters, peer);
  }
}
