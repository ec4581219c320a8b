/** The connection callbacks of the two servers, run against the quota specifications. */
module Servers {
  import opened Common
  import opened Address
  import opened UserQuota
  import opened KernelQuota
  import opened Connections
  import opened KernelRuns
  import opened UserRuns

  /** The list with a node unlinked; the others keep their order. */
  function Without(xs: seq<nat>, x: nat): seq<nat> {
    if xs == [] then []
    else Without(xs[..|xs| - 1], x) + if xs[|xs| - 1] == x then [] else [xs[|xs| - 1]]
  }

  lemma {:induction false} WithoutRemoves(xs: seq<nat>, x: nat)
    ensures NoDup(xs) ==> NoDup(Without(xs, x))
    ensures forall y :: y in Without(xs, x) <==> y in xs && y != x
    ensures x !in xs ==> Without(xs, x) == xs
  {
    if xs != [] {
      var init, last := xs[..|xs| - 1], xs[|xs| - 1];
      WithoutRemoves(init, x);
      assert xs == init + [last];
      if NoDup(xs) {
        assert last !in init;
      }
    }
  }

  /** The others keep their order. */
  lemma {:induction false} WithoutKeepsOrder(before: seq<nat>, x: nat, after: seq<nat>)
    requires NoDup(before + [x] + after)
    ensures Without(before + [x] + after, x) == before + after
  {
    var xs := before + [x] + after;
    if after == [] {
      assert xs[..|xs| - 1] == before;
      assert x !in before;
      WithoutRemoves(before, x);
      assert before + after == before;
    } else {
      var init, last := after[..|after| - 1], after[|after| - 1];
      assert xs[..|xs| - 1] == before + [x] + init;
      WithoutKeepsOrder(before, x, init);
      assert xs[|before|] == x && xs[|xs| - 1] == last;
      assert before + init + [last] == before + after;
    }
  }

  /** http_server: one of the two quotas, chosen at start-up by has_eBPF. */
  class HttpServer {
    const hasEBPF: bool
    const maxConn: nat
    const table: QuotaTable
    const counters: CountersMap
    var nCurrentConns: nat
    var nConn: nat
    var stopped: bool
    var stops: nat  // calls of prog_stop
    ghost var live: Live
    ghost var order: seq<Ipv4>
    ghost var refusedCloses: multiset<int>

    ghost predicate Valid()
      reads this
    {
      && table.Valid()
      && nCurrentConns == |live|
      && stops == (if stopped then 1 else 0)
      && (0 < maxConn <= nConn ==> stopped)
    }

    ghost function UserState(): User
      reads this, table.quotas
    {
      User(table.quotas[..], live, refusedCloses)
    }

    ghost function KernelState(): Kernel
      reads this, counters
    {
      Kernel(counters.entries, live, order)
    }

    constructor (hasEBPF: bool, maxConn: nat)
      ensures Valid() && fresh(table.quotas) && fresh(counters)
      ensures this.hasEBPF == hasEBPF && this.maxConn == maxConn
      ensures UserState() == UserAfter(Start) && KernelState() == KernelAfter(Start)
    {
      this.hasEBPF, this.maxConn := hasEBPF, maxConn;
      table := new QuotaTable();
      counters := new CountersMap();
      nCurrentConns, nConn, stopped, stops := 0, 0, false, 0;
      live, order, refusedCloses := map[], [], multiset{};
    }

    /** `closed`: the connection was refused and lsquic_conn_close called on it. */
    method OnNewConn(ghost id: nat, peer: Ipv4) returns (closed: bool)
      requires Valid() && id !in live
      modifies this, table.quotas, counters
      ensures Valid()
      ensures hasEBPF ==> !closed && KernelState() == old(KernelStep(KernelState(), Open(id, peer)))
      ensures !hasEBPF ==> UserState() == old(UserStep(UserState(), Open(id, peer)))
      ensures !hasEBPF ==> closed == old(Refuses(UserState(), Open(id, peer)))
      ensures if hasEBPF then table.quotas[..] == old(table.quotas[..]) else counters.entries == old(counters.entries)
      ensures nConn == old(nConn) && stops == old(stops)
    {
      nCurrentConns := nCurrentConns + 1;
      closed := false;
      if hasEBPF {
        counters.EquicIncCounter(peer);
        order := if peer in order then order else order + [peer];
      } else {
        var reached := table.ReachedQuotaLimit(peer);
        if reached {
          live := live[id := Conn(peer, false)];
          return true;
        }
        table.IncQuota(peer);
      }
      live := live[id := Conn(peer, true)];
    }

    /** The close counters: prog_stop is called when the last connection goes during cooldown, or at
        the maxConn-th close, and never twice. */
    method CountStops(ghost id: nat, cooldown: bool)
      requires Valid() && id in live
      modifies this`nCurrentConns, this`nConn, this`stopped, this`stops
      ensures nCurrentConns == |live - {id}|
      ensures nConn == old(nConn) + if maxConn > 0 then 1 else 0
      ensures stopped <==> old(stopped) || (cooldown && live - {id} == map[]) || 0 < maxConn <= nConn
      ensures stops == if stopped then 1 else 0
    {
      assert (live - {id}).Keys == live.Keys - {id};
      nCurrentConns := nCurrentConns - 1;
      if cooldown && nCurrentConns == 0 {
        if !stopped {
          stopped := true;
          stops := stops + 1;
        }
      }
      if maxConn > 0 {
        nConn := nConn + 1;
        if nConn >= maxConn {
          if !stopped {
            stopped := true;
            stops := stops + 1;
          }
        }
      }
    }

    /** `cooldown`: the program's PROG_FLAG_COOLDOWN at the time of the call. */
    method OnConnClosed(ghost id: nat, peer: Ipv4, cooldown: bool)
      requires Valid() && id in live && live[id].peer == peer
      modifies this, table.quotas, counters
      ensures Valid()
      ensures hasEBPF ==> KernelState() == old(KernelStep(KernelState(), Close(id)))
      ensures !hasEBPF ==> UserState() == old(UserStep(UserState(), Close(id)))
      ensures if hasEBPF then table.quotas[..] == old(table.quotas[..]) else counters.entries == old(counters.entries)
      ensures nConn == old(nConn) + if maxConn > 0 then 1 else 0
      ensures stopped <==> old(stopped) || (cooldown && live == map[]) || 0 < maxConn <= nConn
    {
      CountStops(id, cooldown);
      if hasEBPF {
        counters.EquicDecCounter(peer);
      } else {
        table.DecQuota(peer);
        refusedCloses := if live[id].admitted then refusedCloses else refusedCloses + multiset{peer.d};
      }
      live := live - {id};
    }
  }

  /** echo_server: always the kernel map; keeps its connections in a list and can stop after n closes. */
  class EchoServer {
    const counters: CountersMap
    var connCtxs: seq<nat>
    var nConn: int
    var stops: nat  // calls of prog_stop
    ghost var live: Live
    ghost var order: seq<Ipv4>

    ghost predicate Valid()
      reads this
    {
      NoDup(connCtxs) && (forall id :: id in connCtxs <==> id in live)
    }

    ghost function KernelState(): Kernel
      reads this, counters
    {
      Kernel(counters.entries, live, order)
    }

    constructor (nConn: int)
      ensures Valid() && fresh(counters)
      ensures this.nConn == nConn && stops == 0 && connCtxs == []
      ensures KernelState() == KernelAfter(Start)
    {
      counters := new CountersMap();
      this.nConn, stops, connCtxs := nConn, 0, [];
      live, order := map[], [];
    }

    method OnNewConn(id: nat, peer: Ipv4)
      requires Valid() && id !in live
      modifies this, counters
      ensures Valid()
      ensures KernelState() == old(KernelStep(KernelState(), Open(id, peer)))
      ensures connCtxs == old(connCtxs) + [id] && nConn == old(nConn) && stops == old(stops)
    {
      connCtxs := connCtxs + [id];
      counters.EquicIncCounter(peer);
      order := if peer in order then order else order + [peer];
      live := live[id := Conn(peer, true)];
    }

    /** prog_stop is called once, by the close that brings the count to 0. */
    method OnConnClosed(id: nat, peer: Ipv4)
      requires Valid() && id in live && live[id].peer == peer
      modifies this, counters
      ensures Valid()
      ensures KernelState() == old(KernelStep(KernelState(), Close(id)))
      ensures connCtxs == Without(old(connCtxs), id)
      ensures nConn == old(nConn) - if old(nConn) == 0 then 0 else 1
      ensures stops == old(stops) + if old(nConn) == 1 then 1 else 0
    {
      if nConn != 0 {
        nConn := nConn - 1;
        if nConn == 0 {
          stops := stops + 1;
        }
      }
      WithoutRemoves(connCtxs, id);
      connCtxs := Without(connCtxs, id);
      counters.EquicDecCounter(peer);
      live := live - {id};
    }
  }
}
