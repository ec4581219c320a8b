/** The user-space quota table: 256 slots, one per last octet. */
module UserQuota {
  import opened Common
  import opened Address

  const QUOTA_LIMIT := 5

  /** The table before any connection. */
  function NoQuotas(): seq<int> {
    seq(256, i => 0)
  }

  /** One less, but not below zero. */
  function SatDec(v: int): int {
    if v > 0 then v - 1 else v
  }

  class QuotaTable {
    const quotas: array<int>

    ghost predicate Valid() {
      quotas.Length == 256
    }

    constructor ()
      ensures Valid() && fresh(quotas)
      ensures quotas[..] == NoQuotas() && forall k :: 0 <= k < 256 ==> quotas[k] == 0
    {
      quotas := new int[256](i => 0);
    }

    method SlotOf(peer: Ipv4) returns (octet: int)
      ensures octet == peer.d
    {
      var addr := Ntoa(peer);
      LastOctetOfNtoa(peer);
      octet := ExtractLastOctet(addr);
    }

    method IncQuota(peer: Ipv4)
      requires Valid()
      modifies quotas
      ensures quotas[..] == old(quotas[..])[peer.d := old(quotas[peer.d]) + 1]
    {
      var octet := SlotOf(peer);
      quotas[octet] := quotas[octet] + 1;
    }

    method DecQuota(peer: Ipv4)
      requires Valid()
      modifies quotas
      ensures quotas[..] == old(quotas[..])[peer.d := SatDec(old(quotas[peer.d]))]
      ensures quotas[peer.d] == if old(quotas[peer.d]) > 0 then old(quotas[peer.d]) - 1 else old(quotas[peer.d])
    {
      var octet := SlotOf(peer);
      if quotas[octet] > 0 {
        quotas[octet] := quotas[octet] - 1;
      }
    }

    method ReachedQuotaLimit(peer: Ipv4) returns (reached: bool)
      requires Valid()
      ensures reached <==> quotas[peer.d] >= 5
    {
      var octet := SlotOf(peer);
      if quotas[octet] >= QUOTA_LIMIT {
        return true;
      }
      return false;
    }
  }
}
