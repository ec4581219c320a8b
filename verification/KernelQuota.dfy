/** The bounded kernel map of connection counters and the XDP hook that reads it. */
module KernelQuota {
  import opened Common
  import opened Address

  const QUIC_QUOTA_LIMIT := 5
  const MAX_ENTRIES := 1024

  type Counters = map<Ipv4, int>

  function CounterOf(m: Counters, client: Ipv4): int {
    if client in m then m[client] else 0
  }

  function IncCounter(m: Counters, client: Ipv4): Counters {
    if client in m then m[client := m[client] + 1]
    else if |m| < MAX_ENTRIES then m[client := 1]
    else m
  }

  function DecCounter(m: Counters, client: Ipv4): Counters {
    if client in m && m[client] != 0 then m[client := m[client] - 1] else m
  }

  datatype UpdateFlag = BpfNoExist | BpfExist

  /** A BPF hash map of bounded size, as the two user-space callbacks use it. */
  class CountersMap {
    var entries: Counters

    constructor ()
      ensures entries == map[]
    {
      entries := map[];
    }

    method LookupElem(key: Ipv4) returns (value: Option<int>)
      ensures value == if key in entries then Some(entries[key]) else None
    {
      value := if key in entries then Some(entries[key]) else None;
    }

    /** Fails without effect on a wrong existence flag or a full map. */
    method UpdateElem(key: Ipv4, value: int, flag: UpdateFlag) returns (ok: bool)
      modifies this
      ensures ok == if flag.BpfExist? then key in old(entries) else key !in old(entries) && |old(entries)| < MAX_ENTRIES
      ensures entries == if ok then old(entries)[key := value] else old(entries)
    {
      ok := if flag.BpfExist? then key in entries else key !in entries && |entries| < MAX_ENTRIES;
      if ok {
        entries := entries[key := value];
      }
    }

    method EquicIncCounter(client: Ipv4)
      modifies this
      ensures entries == IncCounter(old(entries), client)
    {
      var found := LookupElem(client);
      if found.Some? {
        var value := found.value + 1;
        var _ := UpdateElem(client, value, BpfExist);
      } else {
        var _ := UpdateElem(client, 1, BpfNoExist);
      }
    }

    method EquicDecCounter(client: Ipv4)
      modifies this
      ensures entries == DecCounter(old(entries), client)
    {
      var found := LookupElem(client);
      if found.Some? {
        if found.value == 0 {
          return;
        }
        var value := found.value - 1;
        var _ := UpdateElem(client, value, BpfExist);
      }
    }
  }

  // ----- enough peers to fill it -----

  /** The i-th of 1024 distinct peers, none of them `late`. */
  function Filler(late: Ipv4, i: nat): (peer: Ipv4)
    requires i < MAX_ENTRIES
    ensures peer != late
  {
    Ipv4(if late.a == 10 then 11 else 10, 0, i / 256, i % 256)
  }

  function Fillers(late: Ipv4, n: nat): (peers: seq<Ipv4>)
    requires n <= MAX_ENTRIES
    ensures late !in peers && |peers| == n
  {
    seq(n, i requires 0 <= i < MAX_ENTRIES => Filler(late, i))
  }

  lemma FillersSnoc(late: Ipv4, n: nat)
    requires n < MAX_ENTRIES
    ensures Fillers(late, n + 1) == Fillers(late, n) + [Filler(late, n)] && Filler(late, n) !in Fillers(late, n)
  {
  }

  // ----- the XDP hook -----

  type Packet = seq<Byte>

  datatype Verdict = Aborted | Pass | Drop

  const ETH_HEADER := 14
  const IP_HEADER := 20
  const UDP_HEADER := 8
  const PROTOCOL_AT := ETH_HEADER + 9
  const SOURCE_AT := ETH_HEADER + 12
  const IPPROTO_UDP := 17

  function SourceOf(packet: Packet): Ipv4
    requires |packet| >= ETH_HEADER + IP_HEADER
  {
    Ipv4(packet[SOURCE_AT], packet[SOURCE_AT + 1], packet[SOURCE_AT + 2], packet[SOURCE_AT + 3])
  }

  function UdpQuota(m: Counters, packet: Packet): Verdict {
    if ETH_HEADER + IP_HEADER > |packet| then Aborted
    else
      var key := SourceOf(packet);
      if packet[PROTOCOL_AT] == IPPROTO_UDP then
        if ETH_HEADER + IP_HEADER + UDP_HEADER > |packet| then Aborted
        else if key !in m then Pass
        else if m[key] >= QUIC_QUOTA_LIMIT then Drop
        else Pass
      else Pass
  }

  /** The packet is long enough for its headers and says UDP; the hook looks at nothing else. */
  predicate IsUdpFrom(packet: Packet, client: Ipv4) {
    && |packet| >= ETH_HEADER + IP_HEADER + UDP_HEADER
    && packet[PROTOCOL_AT] == IPPROTO_UDP
    && SourceOf(packet) == client
  }

  /** The smallest such packet. */
  function UdpPacket(client: Ipv4): (packet: Packet)
    ensures IsUdpFrom(packet, client)
  {
    seq(PROTOCOL_AT, i => 0) + [IPPROTO_UDP, 0, 0, client.a, client.b, client.c, client.d]
    + seq(ETH_HEADER + IP_HEADER + UDP_HEADER - SOURCE_AT - 4, i => 0)
  }

  /** A packet is dropped for its source's quota and for nothing else, whichever map is loaded. */
  lemma DropsExactlyExhaustedUdp(m: Counters, packet: Packet)
    ensures UdpQuota(m, packet) == Drop
       <==> exists client :: IsUdpFrom(packet, client) && CounterOf(m, client) >= QUIC_QUOTA_LIMIT
    ensures forall client :: IsUdpFrom(packet, client) ==> UdpQuota(m, packet) != Aborted
  {
    if |packet| >= ETH_HEADER + IP_HEADER + UDP_HEADER {
      var client := SourceOf(packet);
      assert packet[PROTOCOL_AT] == IPPROTO_UDP ==> IsUdpFrom(packet, client);
    }
  }

  /** The verdict on any bytes in numbers: the header sizes 14, 20 and 8, protocol 17 at byte 23, the source at
      bytes 26 to 29, and the limit 5. */
  lemma VerdictInNumbers(m: Counters, packet: Packet)
    ensures UdpQuota(m, packet) == Aborted <==> |packet| < 34 || (packet[23] == 17 && |packet| < 42)
    ensures UdpQuota(m, packet) == Drop <==>
              |packet| >= 42 && packet[23] == 17
              && (var source := Ipv4(packet[26], packet[27], packet[28], packet[29]);
                  source in m && m[source] >= 5)
    ensures |packet| >= 34 && packet[23] != 17 ==> UdpQuota(m, packet) == Pass
    ensures |packet| >= 42 && UdpQuota(m, packet) != Drop ==> UdpQuota(m, packet) == Pass
  {
  }
}
