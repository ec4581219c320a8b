/** Connection events shared by both quota protocols, and counting of live connections. */
module Connections {
  import opened Common
  import opened Address

  /** A connection as the user-space server remembers it: who opened it, and whether it was let in. */
  datatype Conn = Conn(peer: Ipv4, admitted: bool)

  type Live = map<nat, Conn>

  /** on_new_conn and on_conn_closed; opening a live id or closing any other cannot happen and is a stutter. */
  datatype Event = Open(id: nat, peer: Ipv4) | Close(id: nat)

  predicate Enabled(live: Live, e: Event) {
    e.Open? <==> e.id !in live
  }

  function Ids(live: Live, f: Conn -> bool): set<nat> {
    set id | id in live && f(live[id])
  }

  function Count(live: Live, f: Conn -> bool): nat {
    |Ids(live, f)|
  }

  function FromPeer(p: Ipv4): Conn -> bool {
    (c: Conn) => c.peer == p
  }

  function AdmittedAt(octet: int): Conn -> bool {
    (c: Conn) => c.peer.d == octet && c.admitted
  }

  lemma CountOpen(live: Live, id: nat, c: Conn, f: Conn -> bool)
    requires id !in live
    ensures Count(live[id := c], f) == Count(live, f) + if f(c) then 1 else 0
  {
    assert Ids(live[id := c], f) == Ids(live, f) + if f(c) then {id} else {};
  }

  lemma CountClose(live: Live, id: nat, f: Conn -> bool)
    requires id in live
    ensures Count(live - {id}, f) == Count(live, f) - if f(live[id]) then 1 else 0
  {
    assert Ids(live - {id}, f) == Ids(live, f) - if f(live[id]) then {id} else {};
  }

  lemma CountNone(live: Live, f: Conn -> bool)
    requires forall id :: id in live ==> !f(live[id])
    ensures Count(live, f) == 0
  {
    assert Ids(live, f) == {};
  }

  lemma CountSome(live: Live, id: nat, f: Conn -> bool)
    requires id in live && f(live[id])
    ensures Count(live, f) >= 1
  {
    assert id in Ids(live, f);
  }
}
