/** The XDP hook and the counters it reads, with connection attempts in flight between the two. */
module HookRuns {
  import opened Common
  import opened Address
  import opened KernelQuota
  import opened Connections
  import opened KernelRuns

  /** `pending` holds the attempts that passed the hook and have not reached on_new_conn yet. */
  datatype Hooked = Hooked(kernel: Kernel, pending: multiset<Ipv4>)

  datatype HookEvent =
    | Arrive(packet: Packet)
    | Deliver(id: nat, peer: Ipv4)
    | Abandon(peer: Ipv4)
    | Closed(id: nat)

  const QUIET := Hooked(EMPTY_KERNEL, multiset{})

  function HookStep(s: Hooked, e: HookEvent): Hooked {
    match e
    case Arrive(packet) =>
      if |packet| >= ETH_HEADER + IP_HEADER && IsUdpFrom(packet, SourceOf(packet))
         && UdpQuota(s.kernel.counters, packet) == Pass
      then s.(pending := s.pending + multiset{SourceOf(packet)})
      else s
    case Deliver(id, peer) =>
      if peer in s.pending && id !in s.kernel.live
      then Hooked(KernelStep(s.kernel, Open(id, peer)), s.pending - multiset{peer})
      else s
    case Abandon(peer) => s.(pending := s.pending - multiset{peer})
    case Closed(id) => s.(kernel := KernelStep(s.kernel, Close(id)))
  }

  function HookAfter(run: Run<HookEvent>): Hooked {
    match run
    case Start => QUIET
    case Then(before, e) => HookStep(HookAfter(before), e)
  }

  /** Throughout the run, at most `limit` attempts of this peer are in flight. */
  ghost predicate PendingAtMost(run: Run<HookEvent>, peer: Ipv4, limit: nat) {
    HookAfter(run).pending[peer] <= limit && (run.Then? ==> PendingAtMost(run.before, peer, limit))
  }

  lemma {:induction false} HookedExact(run: Run<HookEvent>)
    ensures Exact(HookAfter(run).kernel)
  {
    if run.Then? {
      HookedExact(run.before);
      var s := HookAfter(run.before);
      match run.last
      case Deliver(id, peer) => ExactStep(s.kernel, Open(id, peer));
      case Closed(id) => ExactStep(s.kernel, Close(id));
      case _ =>
    }
  }

  /** What each event does. A packet is let in when it is UDP and its source's counter is below 5; it is in flight until
      it is delivered as a new connection or abandoned; a close takes its connection away, and one off its counter. */
  lemma EventsInNumbers(s: Hooked, e: HookEvent)
    requires Exact(s.kernel)
    ensures var t := HookStep(s, e);
      match e
      case Arrive(packet) =>
        && t.kernel == s.kernel
        && (if |packet| >= 42 && packet[23] == 17
               && CounterOf(s.kernel.counters, Ipv4(packet[26], packet[27], packet[28], packet[29])) < 5
            then t.pending == s.pending + multiset{Ipv4(packet[26], packet[27], packet[28], packet[29])}
            else t.pending == s.pending)
      case Abandon(peer) =>
        t.kernel == s.kernel && t.pending == s.pending - multiset{peer}
      case Deliver(id, peer) =>
        if peer in s.pending && id !in s.kernel.live
        then t.kernel.live == s.kernel.live[id := Conn(peer, true)] && t.pending == s.pending - multiset{peer}
        else t == s
      case Closed(id) =>
        && t.pending == s.pending && t.kernel.live == s.kernel.live - {id}
        && (id in s.kernel.live && s.kernel.live[id].peer in s.kernel.counters ==>
              var peer := s.kernel.live[id].peer;
              CounterOf(t.kernel.counters, peer) == CounterOf(s.kernel.counters, peer) - 1)
  {
    match e
    case Closed(id) =>
      if id in s.kernel.live {
        ExactAfterClose(s.kernel, id);
      } else {
        assert s.kernel.live - {id} == s.kernel.live;
      }
    case _ =>
  }

  /** Counter and attempts in flight, together. */
  function Committed(s: Hooked, peer: Ipv4): int {
    CounterOf(s.kernel.counters, peer) + s.pending[peer]
  }

  /** Only a packet of the peer's own, let in below the quota, raises the sum. */
  lemma CommittedStep(s: Hooked, e: HookEvent, peer: Ipv4)
    requires Exact(s.kernel)
    ensures var t := HookStep(s, e);
      || Committed(t, peer) <= Committed(s, peer)
      || (e.Arrive? && IsUdpFrom(e.packet, peer) && UdpQuota(s.kernel.counters, e.packet) == Pass
          && Committed(t, peer) == Committed(s, peer) + 1 && t.kernel == s.kernel
          && CounterOf(s.kernel.counters, peer) < QUIC_QUOTA_LIMIT && t.pending[peer] == s.pending[peer] + 1)
  {
  }

  lemma OvershootStep(s: Hooked, e: HookEvent, peer: Ipv4, limit: nat)
    requires Exact(s.kernel) && Committed(s, peer) <= QUIC_QUOTA_LIMIT - 1 + limit
    requires HookStep(s, e).pending[peer] <= limit
    ensures Committed(HookStep(s, e), peer) <= QUIC_QUOTA_LIMIT - 1 + limit
  {
    CommittedStep(s, e, peer);
  }

  /** Step invariant of the whole protocol: counter plus attempts in flight never exceed 4 plus their limit. */
  lemma {:induction false} OvershootInvariant(run: Run<HookEvent>, peer: Ipv4, limit: nat)
    requires PendingAtMost(run, peer, limit)
    ensures Committed(HookAfter(run), peer) <= QUIC_QUOTA_LIMIT - 1 + limit
  {
    if run.Then? {
      OvershootInvariant(run.before, peer, limit);
      HookedExact(run.before);
      OvershootStep(HookAfter(run.before), run.last, peer, limit);
    }
  }

  /** A peer with a key has at most 4 + limit live connections. */
  lemma OvershootBound(run: Run<HookEvent>, peer: Ipv4, limit: nat)
    requires PendingAtMost(run, peer, limit)
    ensures CounterOf(HookAfter(run).kernel.counters, peer) <= QUIC_QUOTA_LIMIT - 1 + limit
    ensures peer in HookAfter(run).kernel.counters
        ==> Count(HookAfter(run).kernel.live, FromPeer(peer)) <= QUIC_QUOTA_LIMIT - 1 + limit
  {
    OvershootInvariant(run, peer, limit);
    HookedExact(run);
  }

  // ----- the bound is attained, and needs the key -----

  /** A point of a run as one peer sees it: its counter, its attempts in flight, whether the map counts it,
      and ids from `ids` on unused. */
  ghost predicate Sees(run: Run<HookEvent>, peer: Ipv4, limit: nat, counter: int, pending: nat, ids: nat,
                       counted: bool) {
    var s := HookAfter(run);
    && PendingAtMost(run, peer, limit)
    && CounterOf(s.kernel.counters, peer) == counter
    && s.pending[peer] == pending
    && (counted <==> peer in s.kernel.counters || |s.kernel.counters| < MAX_ENTRIES)
    && forall id :: id in s.kernel.live ==> id < ids
  }

  lemma ArriveOne(run: Run<HookEvent>, packet: Packet, peer: Ipv4, limit: nat, counter: int, pending: nat, ids: nat,
                  counted: bool)
    requires Sees(run, peer, limit, counter, pending, ids, counted) && IsUdpFrom(packet, peer)
    requires counter < QUIC_QUOTA_LIMIT && pending < limit
    ensures Sees(Then(run, Arrive(packet)), peer, limit, counter, pending + 1, ids, counted)
    ensures HookAfter(Then(run, Arrive(packet))).kernel == HookAfter(run).kernel
  {
  }

  lemma DeliverOne(run: Run<HookEvent>, peer: Ipv4, limit: nat, counter: int, pending: nat, id: nat, counted: bool)
    requires Sees(run, peer, limit, counter, pending, id, counted) && 0 < pending
    ensures Sees(Then(run, Deliver(id, peer)), peer, limit, if counted then counter + 1 else counter, pending - 1,
                 id + 1, counted)
    ensures HookAfter(Then(run, Deliver(id, peer))).kernel == KernelStep(HookAfter(run).kernel, Open(id, peer))
  {
    assert HookAfter(run).pending[peer] <= limit;
  }

  /** n connections, each delivered before the next packet arrives. */
  lemma {:induction false} AdmitFew(packet: Packet, peer: Ipv4, limit: nat, n: nat) returns (run: Run<HookEvent>)
    requires n < QUIC_QUOTA_LIMIT && limit >= 1 && IsUdpFrom(packet, peer)
    ensures Sees(run, peer, limit, n, 0, n, true)
  {
    run := Start;
    if n > 0 {
      run := AdmitFew(packet, peer, limit, n - 1);
      ArriveOne(run, packet, peer, limit, n - 1, 0, n - 1, true);
      run := Then(run, Arrive(packet));
      DeliverOne(run, peer, limit, n - 1, 1, n - 1, true);
      run := Then(run, Deliver(n - 1, peer));
    }
  }

  /** n attempts pass the hook before any is delivered. */
  lemma {:induction false} ArriveMany(from: Run<HookEvent>, packet: Packet, peer: Ipv4, limit: nat, n: nat)
    returns (run: Run<HookEvent>)
    requires Sees(from, peer, limit, 4, 0, 4, true) && n <= limit && IsUdpFrom(packet, peer)
    ensures Sees(run, peer, limit, 4, n, 4, true)
  {
    run := from;
    if n > 0 {
      run := ArriveMany(from, packet, peer, limit, n - 1);
      ArriveOne(run, packet, peer, limit, 4, n - 1, 4, true);
      run := Then(run, Arrive(packet));
    }
  }

  /** n of the attempts in flight become connections. */
  lemma {:induction false} DeliverMany(from: Run<HookEvent>, peer: Ipv4, limit: nat, n: nat)
    returns (run: Run<HookEvent>)
    requires Sees(from, peer, limit, 4, limit, 4, true) && n <= limit
    ensures Sees(run, peer, limit, 4 + n, limit - n, 4 + n, true)
  {
    run := from;
    if n > 0 {
      run := DeliverMany(from, peer, limit, n - 1);
      DeliverOne(run, peer, limit, 3 + n, limit - n + 1, 3 + n, true);
      run := Then(run, Deliver(3 + n, peer));
    }
  }

  /** The overshoot bound is attained for every peer and limit. */
  lemma OvershootIsTight(packet: Packet, peer: Ipv4, limit: nat)
    requires limit >= 1 && IsUdpFrom(packet, peer)
    ensures exists run ::
      PendingAtMost(run, peer, limit) && CounterOf(HookAfter(run).kernel.counters, peer) == QUIC_QUOTA_LIMIT - 1 + limit
  {
    var run := AdmitFew(packet, peer, limit, 4);
    run := ArriveMany(run, packet, peer, limit, limit);
    run := DeliverMany(run, peer, limit, limit);
    assert PendingAtMost(run, peer, limit);
  }

  /** Nothing of `late` happened, and these peers opened first. */
  ghost predicate Filled(run: Run<HookEvent>, late: Ipv4, peers: seq<Ipv4>) {
    && PendingAtMost(run, late, 1)
    && HookAfter(run).pending[late] == 0
    && HookAfter(run).kernel.order == peers
    && forall id :: id in HookAfter(run).kernel.live ==> id < |peers|
  }

  lemma FillOne(run: Run<HookEvent>, packet: Packet, peer: Ipv4, late: Ipv4, peers: seq<Ipv4>)
    requires peer != late && IsUdpFrom(packet, peer) && peer !in peers && Filled(run, late, peers)
    ensures Filled(Then(Then(run, Arrive(packet)), Deliver(|peers|, peer)), late, peers + [peer])
  {
    HookedExact(run);
    var s := HookAfter(run);
    assert peer !in s.kernel.counters;
    assert HookAfter(Then(run, Arrive(packet))) == Hooked(s.kernel, s.pending + multiset{peer});
  }

  lemma FillNext(from: Run<HookEvent>, late: Ipv4, n: nat) returns (run: Run<HookEvent>)
    requires n < MAX_ENTRIES && Filled(from, late, Fillers(late, n))
    ensures Filled(run, late, Fillers(late, n + 1))
  {
    var peer := Filler(late, n);
    FillersSnoc(late, n);
    FillOne(from, UdpPacket(peer), peer, late, Fillers(late, n));
    run := Then(Then(from, Arrive(UdpPacket(peer))), Deliver(n, peer));
  }

  lemma {:induction false} FillMany(late: Ipv4, n: nat) returns (run: Run<HookEvent>)
    requires n <= MAX_ENTRIES
    ensures Filled(run, late, Fillers(late, n))
  {
    run := Start;
    if n > 0 {
      var most := FillMany(late, n - 1);
      run := FillNext(most, late, n - 1);
    }
  }

  /** A peer the full map has no room for, with its live connections. */
  ghost predicate Unlimited(run: Run<HookEvent>, late: Ipv4, live: nat, ids: nat) {
    && Sees(run, late, 1, 0, 0, ids, false)
    && Count(HookAfter(run).kernel.live, FromPeer(late)) == live
  }

  lemma FilledIsFull(run: Run<HookEvent>, late: Ipv4, peers: seq<Ipv4>)
    requires Filled(run, late, peers) && late !in peers && |peers| == MAX_ENTRIES
    ensures Unlimited(run, late, 0, |peers|)
  {
    var s := HookAfter(run).kernel;
    HookedExact(run);
    KeyCount(s);
    CountNone(s.live, FromPeer(late));
  }

  lemma AdmitUncounted(from: Run<HookEvent>, packet: Packet, late: Ipv4, live: nat, id: nat)
    returns (run: Run<HookEvent>)
    requires Unlimited(from, late, live, id) && IsUdpFrom(packet, late)
    ensures Unlimited(run, late, live + 1, id + 1)
  {
    ArriveOne(from, packet, late, 1, 0, 0, id, false);
    run := Then(from, Arrive(packet));
    DeliverOne(run, late, 1, 0, 1, id, false);
    run := Then(run, Deliver(id, late));
    CountOpen(HookAfter(from).kernel.live, id, Conn(late, true), FromPeer(late));
  }

  lemma {:induction false} AdmitManyUncounted(from: Run<HookEvent>, packet: Packet, late: Ipv4, ids: nat, n: nat)
    returns (run: Run<HookEvent>)
    requires Unlimited(from, late, 0, ids) && IsUdpFrom(packet, late)
    ensures Unlimited(run, late, n, ids + n)
  {
    if n == 0 {
      run := from;
    } else {
      var most := AdmitManyUncounted(from, packet, late, ids, n - 1);
      run := AdmitUncounted(most, packet, late, n - 1, ids + n - 1);
    }
  }

  /** So five per address is no limit on the 1025th address: once 1024 others have opened, any number of
      its connections get in one at a time, and the hook still passes its packets. */
  lemma QuotaNeedsAKey(packet: Packet, late: Ipv4, n: nat)
    requires IsUdpFrom(packet, late)
    ensures exists run ::
      && PendingAtMost(run, late, 1)
      && Count(HookAfter(run).kernel.live, FromPeer(late)) == n
      && UdpQuota(HookAfter(run).kernel.counters, packet) == Pass
  {
    var full: nat := MAX_ENTRIES;
    var run := FillMany(late, full);
    FilledIsFull(run, late, Fillers(late, full));
    run := AdmitManyUncounted(run, packet, late, full, n);
    assert PendingAtMost(run, late, 1) && UdpQuota(HookAfter(run).kernel.counters, packet) == Pass;
  }
}
