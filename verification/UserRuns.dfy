/** The user-space table over whole runs: what refused connections do to it. */
module UserRuns {
  import opened Common
  import opened Address
  import opened UserQuota
  import opened Connections

  /** `refusedCloses` counts, per octet, the closes of connections that were refused when they opened. */
  datatype User = User(quotas: seq<int>, live: Live, refusedCloses: multiset<int>)

  const EMPTY_USER := User(NoQuotas(), map[], multiset{})

  ghost predicate Refuses(s: User, e: Event)
    requires |s.quotas| == 256
  {
    e.Open? && e.id !in s.live && s.quotas[e.peer.d] >= QUOTA_LIMIT
  }

  function UserStep(s: User, e: Event): (t: User)
    requires |s.quotas| == 256
    ensures |t.quotas| == 256
  {
    if !Enabled(s.live, e) then s
    else match e
      case Open(id, peer) =>
        if s.quotas[peer.d] >= QUOTA_LIMIT
        then s.(live := s.live[id := Conn(peer, false)])
        else s.(live := s.live[id := Conn(peer, true)], quotas := s.quotas[peer.d := s.quotas[peer.d] + 1])
      case Close(id) =>
        var c := s.live[id];
        User(s.quotas[c.peer.d := SatDec(s.quotas[c.peer.d])],
             s.live - {id},
             if c.admitted then s.refusedCloses else s.refusedCloses + multiset{c.peer.d})
  }

  function UserAfter(run: Run<Event>): (t: User)
    ensures |t.quotas| == 256
  {
    match run
    case Start => EMPTY_USER
    case Then(before, e) => UserStep(UserAfter(before), e)
  }

  function Admitted(s: User, octet: Byte): nat {
    Count(s.live, AdmittedAt(octet))
  }

  predicate Bounded(s: User, octet: Byte) {
    && |s.quotas| == 256
    && 0 <= s.quotas[octet] <= QUOTA_LIMIT
    && 0 <= Admitted(s, octet) - s.quotas[octet] <= s.refusedCloses[octet]
  }

  lemma BoundedStep(s: User, e: Event, octet: Byte)
    requires Bounded(s, octet)
    ensures Bounded(UserStep(s, e), octet)
  {
    if Enabled(s.live, e) {
      match e
      case Open(id, peer) =>
        CountOpen(s.live, id, Conn(peer, s.quotas[peer.d] < QUOTA_LIMIT), AdmittedAt(octet));
      case Close(id) =>
        CountClose(s.live, id, AdmittedAt(octet));
        if AdmittedAt(octet)(s.live[id]) {
          CountSome(s.live, id, AdmittedAt(octet));
        }
    }
  }

  /** The drift bound: the table undercounts admitted connections by at most the refused closes. */
  lemma {:induction false} DriftBound(run: Run<Event>, octet: Byte)
    ensures Bounded(UserAfter(run), octet)
    ensures Admitted(UserAfter(run), octet) <= 5 + UserAfter(run).refusedCloses[octet]
    ensures 0 <= UserAfter(run).quotas[octet] <= 5
  {
    match run
    case Start => CountNone(map[], AdmittedAt(octet));
    case Then(before, e) =>
      DriftBound(before, octet);
      BoundedStep(UserAfter(before), e, octet);
  }

  /** A refused connection of this octet closes while the slot is above zero: the slot loses one too many. */
  ghost predicate TakesTooMuch(s: User, e: Event, octet: Byte)
    requires |s.quotas| == 256
  {
    e.Close? && e.id in s.live && !s.live[e.id].admitted && s.live[e.id].peer.d == octet && s.quotas[octet] > 0
  }

  /** An admitted connection of this octet closes while the slot is zero: the slot loses nothing. */
  ghost predicate TakesTooLittle(s: User, e: Event, octet: Byte)
    requires |s.quotas| == 256
  {
    e.Close? && e.id in s.live && s.live[e.id].admitted && s.live[e.id].peer.d == octet && s.quotas[octet] <= 0
  }

  ghost function TooMuch(run: Run<Event>, octet: Byte): nat {
    if run.Start? then 0
    else TooMuch(run.before, octet) + if TakesTooMuch(UserAfter(run.before), run.last, octet) then 1 else 0
  }

  ghost function TooLittle(run: Run<Event>, octet: Byte): nat {
    if run.Start? then 0
    else TooLittle(run.before, octet) + if TakesTooLittle(UserAfter(run.before), run.last, octet) then 1 else 0
  }

  lemma DriftStep(s: User, e: Event, octet: Byte)
    requires Bounded(s, octet)
    ensures var t := UserStep(s, e);
      Admitted(t, octet) - t.quotas[octet] == Admitted(s, octet) - s.quotas[octet]
        + (if TakesTooMuch(s, e, octet) then 1 else 0) - (if TakesTooLittle(s, e, octet) then 1 else 0)
  {
    if Enabled(s.live, e) {
      match e
      case Open(id, peer) =>
        CountOpen(s.live, id, Conn(peer, s.quotas[peer.d] < QUOTA_LIMIT), AdmittedAt(octet));
      case Close(id) =>
        CountClose(s.live, id, AdmittedAt(octet));
    }
  }

  /** An exact slot stays exact unless a refused connection closes while the slot is above zero. */
  lemma ExactSlotBreaksOnlyAt(s: User, e: Event, octet: Byte)
    requires Bounded(s, octet) && s.quotas[octet] == Admitted(s, octet)
    ensures UserStep(s, e).quotas[octet] == Admitted(UserStep(s, e), octet) <==> !TakesTooMuch(s, e, octet)
  {
    DriftStep(s, e, octet);
    if e.Close? && e.id in s.live && AdmittedAt(octet)(s.live[e.id]) {
      CountSome(s.live, e.id, AdmittedAt(octet));
    }
  }

  /** The drift exactly, over every run; so a slot is exact whenever as many closes took too little as took too
      much. */
  lemma {:induction false} DriftIdentity(run: Run<Event>, octet: Byte)
    ensures var s := UserAfter(run);
      Admitted(s, octet) - s.quotas[octet] == TooMuch(run, octet) - TooLittle(run, octet)
  {
    match run
    case Start => CountNone(map[], AdmittedAt(octet));
    case Then(before, e) =>
      DriftIdentity(before, octet);
      DriftBound(before, octet);
      DriftStep(UserAfter(before), e, octet);
  }

  /** Connections 0 to n-1, all from one peer. */
  function Opens(peer: Ipv4, n: nat): Run<Event> {
    if n == 0 then Start else Then(Opens(peer, n - 1), Open(n - 1, peer))
  }

  /** n+5 simultaneous admitted connections from one peer, at the price of n refused closes. */
  function OverrunRun(peer: Ipv4, n: nat): Run<Event> {
    if n == 0 then Opens(peer, QUOTA_LIMIT)
    else
      var id := QUOTA_LIMIT + 2 * n;
      Then(Then(Then(OverrunRun(peer, n - 1), Open(id, peer)), Close(id)), Open(id + 1, peer))
  }

  /** The octet's slot and admitted connections, the refused closes there, and a bound on the ids in use. */
  ghost predicate Shows(s: User, octet: Byte, slot: int, admitted: nat, refused: nat, ids: nat) {
    && |s.quotas| == 256
    && s.quotas[octet] == slot
    && Admitted(s, octet) == admitted
    && s.refusedCloses[octet] == refused
    && forall id :: id in s.live ==> id < ids
  }

  lemma ShowsOpen(s: User, peer: Ipv4, slot: int, admitted: nat, refused: nat, id: nat)
    requires Shows(s, peer.d, slot, admitted, refused, id) && slot < QUOTA_LIMIT
    ensures Shows(UserStep(s, Open(id, peer)), peer.d, slot + 1, admitted + 1, refused, id + 1)
  {
    CountOpen(s.live, id, Conn(peer, true), AdmittedAt(peer.d));
  }

  lemma ShowsRefusal(s: User, peer: Ipv4, admitted: nat, refused: nat, id: nat)
    requires Shows(s, peer.d, QUOTA_LIMIT, admitted, refused, id)
    ensures Shows(UserStep(UserStep(s, Open(id, peer)), Close(id)),
                  peer.d, QUOTA_LIMIT - 1, admitted, refused + 1, id + 1)
  {
    assert s.live[id := Conn(peer, false)] - {id} == s.live;
  }

  lemma {:induction false} ShowsOpens(peer: Ipv4, n: nat)
    requires n <= QUOTA_LIMIT
    ensures Shows(UserAfter(Opens(peer, n)), peer.d, n, n, 0, n)
  {
    if n == 0 {
      CountNone(map[], AdmittedAt(peer.d));
    } else {
      ShowsOpens(peer, n - 1);
      ShowsOpen(UserAfter(Opens(peer, n - 1)), peer, n - 1, n - 1, 0, n - 1);
    }
  }

  lemma ShowsOverrun(run: Run<Event>, peer: Ipv4, admitted: nat, refused: nat, id: nat)
    requires Shows(UserAfter(run), peer.d, QUOTA_LIMIT, admitted, refused, id)
    ensures Shows(UserAfter(Then(Then(Then(run, Open(id, peer)), Close(id)), Open(id + 1, peer))),
                  peer.d, QUOTA_LIMIT, admitted + 1, refused + 1, id + 2)
  {
    var s := UserAfter(run);
    var refusal := Then(run, Open(id, peer));
    assert UserAfter(Then(refusal, Close(id))) == UserStep(UserAfter(refusal), Close(id));
    ShowsRefusal(s, peer, admitted, refused, id);
    ShowsOpen(UserStep(UserStep(s, Open(id, peer)), Close(id)), peer, QUOTA_LIMIT - 1, admitted, refused + 1, id + 1);
  }

  /** The drift bound is attained for every number of refused closes: five is no limit on live connections. */
  lemma {:induction false} DriftBoundIsTight(peer: Ipv4, n: nat)
    ensures Shows(UserAfter(OverrunRun(peer, n)), peer.d, QUOTA_LIMIT, QUOTA_LIMIT + n, n, QUOTA_LIMIT + 2 * n + 2)
  {
    if n == 0 {
      ShowsOpens(peer, QUOTA_LIMIT);
    } else {
      DriftBoundIsTight(peer, n - 1);
      ShowsOverrun(OverrunRun(peer, n - 1), peer, QUOTA_LIMIT + n - 1, n - 1, QUOTA_LIMIT + 2 * n);
    }
  }
}
