/** Accumulating a request's headers: pseudo-headers, the text that echoes them, and the decode buffer. */
module HeaderSet {
  import opened Common
  import opened Address
  import opened RouteTable

  datatype Header = Header(name: string, value: string)

  datatype PseudoHeader = Authority | MethodName | PathName

  /** struct req, apart from the decode buffer. Strings kept by strndup end at the first terminator. */
  datatype Req = Req(verb: Verb, pseudo: set<PseudoHeader>, path: Option<string>, methodStr: Option<string>,
                     authority: Option<string>, qif: string)

  const EMPTY_REQ := Req(Unset, {}, None, None, None, "")

  function Line(h: Header): string {
    h.name + "\t" + h.value + "\n"
  }

  function VerbOf(methodStr: string): Verb {
    if methodStr == "GET" then Get else if methodStr == "POST" then Post else Unsupported
  }

  /** The request after one header, and the code returned for it. */
  function Add(r: Req, h: Header): (Req, int) {
    var r := r.(qif := r.qif + Line(h));
    var kept := CharsBeforeNul(h.value);
    if h.name == ":path" then
      if r.path.Some? then (r, 1)
      else (r.(path := Some(kept), pseudo := r.pseudo + {PathName}), 0)
    else if h.name == ":method" then
      if r.verb != Unset then (r, 1)
      else (r.(verb := VerbOf(kept), methodStr := Some(kept), pseudo := r.pseudo + {MethodName}), 0)
    else if h.name == ":authority" then
      (r.(authority := Some(kept), pseudo := r.pseudo + {Authority}), 0)
    else (r, 0)
  }

  function FinalCheck(r: Req): int {
    if r.pseudo == {Authority, MethodName, PathName} then 0 else 1
  }

  function AddAll(hs: seq<Header>): Req {
    if hs == [] then EMPTY_REQ else Add(AddAll(hs[..|hs| - 1]), hs[|hs| - 1]).0
  }

  /** No add returned an error. */
  predicate AllAdded(hs: seq<Header>) {
    hs != [] ==> AllAdded(hs[..|hs| - 1]) && Add(AddAll(hs[..|hs| - 1]), hs[|hs| - 1]).1 == 0
  }

  predicate Accepted(hs: seq<Header>) {
    AllAdded(hs) && FinalCheck(AddAll(hs)) == 0
  }

  // ----- the acceptance rule -----

  function Occurrences(hs: seq<Header>, name: string): nat {
    if hs == [] then 0
    else Occurrences(hs[..|hs| - 1], name) + if hs[|hs| - 1].name == name then 1 else 0
  }

  function FirstValue(hs: seq<Header>, name: string): Option<string> {
    if hs == [] then None
    else
      var before := FirstValue(hs[..|hs| - 1], name);
      if before.Some? || hs[|hs| - 1].name != name then before else Some(CharsBeforeNul(hs[|hs| - 1].value))
  }

  function LastValue(hs: seq<Header>, name: string): Option<string> {
    if hs == [] then None
    else if hs[|hs| - 1].name == name then Some(CharsBeforeNul(hs[|hs| - 1].value))
    else LastValue(hs[..|hs| - 1], name)
  }

  /** At every step: the flag bits say which pseudo-headers came, the stored fields are the first path,
      the first method and the last authority, and the two duplicates are what was refused. */
  lemma {:induction false} FieldsFollowHeaders(hs: seq<Header>)
    ensures var r := AddAll(hs);
      && r.path == FirstValue(hs, ":path")
      && r.methodStr == FirstValue(hs, ":method")
      && r.authority == LastValue(hs, ":authority")
      && r.verb == (if r.methodStr.Some? then VerbOf(r.methodStr.value) else Unset)
      && (PathName in r.pseudo <==> r.path.Some?)
      && (MethodName in r.pseudo <==> r.methodStr.Some?)
      && (Authority in r.pseudo <==> r.authority.Some?)
      && (r.path.Some? <==> Occurrences(hs, ":path") >= 1)
      && (r.methodStr.Some? <==> Occurrences(hs, ":method") >= 1)
      && (r.authority.Some? <==> Occurrences(hs, ":authority") >= 1)
      && (AllAdded(hs) <==> Occurrences(hs, ":path") <= 1 && Occurrences(hs, ":method") <= 1)
  {
    if hs != [] {
      FieldsFollowHeaders(hs[..|hs| - 1]);
    }
  }

  /** The value is this text, or this text, a terminator and anything. */
  predicate Reads(value: string, text: string) {
    '\0' !in text && (value == text || text + ['\0'] <= value)
  }

  lemma ReadsIsKept(value: string, text: string)
    requires Reads(value, text)
    ensures CharsBeforeNul(value) == text
  {
    if value == text {
      PlainIsKept(text);
    } else {
      CharsBeforeNulOf(text, value[|text| + 1..]);
      assert value == text + [NUL] + value[|text| + 1..];
    }
  }

  lemma {:induction false} NotYet(hs: seq<Header>, name: string)
    ensures (forall j :: 0 <= j < |hs| ==> hs[j].name != name) ==> FirstValue(hs, name) == None
  {
    if hs != [] && (forall j :: 0 <= j < |hs| ==> hs[j].name != name) {
      NotYet(hs[..|hs| - 1], name);
    }
  }

  lemma {:induction false} FirstIs(hs: seq<Header>, i: nat, text: string)
    requires i < |hs| && Reads(hs[i].value, text)
    ensures (forall j :: 0 <= j < i ==> hs[j].name != hs[i].name) ==> FirstValue(hs, hs[i].name) == Some(text)
    ensures (forall j :: i < j < |hs| ==> hs[j].name != hs[i].name) ==> LastValue(hs, hs[i].name) == Some(text)
  {
    if i == |hs| - 1 {
      ReadsIsKept(hs[i].value, text);
      NotYet(hs[..i], hs[i].name);
    } else {
      FirstIs(hs[..|hs| - 1], i, text);
    }
  }

  /** What is stored, told from the headers' own values: the first path, the first method, read as GET, POST or
      another, and the last authority. */
  lemma StoresTheValues(hs: seq<Header>, i: nat, text: string)
    requires i < |hs| && Reads(hs[i].value, text)
    ensures hs[i].name == ":path" && (forall j :: 0 <= j < i ==> hs[j].name != ":path") ==>
              AddAll(hs).path == Some(text)
    ensures hs[i].name == ":method" && (forall j :: 0 <= j < i ==> hs[j].name != ":method") ==>
              && AddAll(hs).methodStr == Some(text)
              && (AddAll(hs).verb == Get <==> text == "GET") && (AddAll(hs).verb == Post <==> text == "POST")
              && AddAll(hs).verb != Unset
    ensures hs[i].name == ":authority" && (forall j :: i < j < |hs| ==> hs[j].name != ":authority") ==>
              AddAll(hs).authority == Some(text)
  {
    FieldsFollowHeaders(hs);
    FirstIs(hs, i, text);
  }

  /** A header of this name, read as this text. */
  ghost predicate Says(hs: seq<Header>, name: string, text: string) {
    exists i :: 0 <= i < |hs| && hs[i].name == name && Reads(hs[i].value, text)
  }

  /** A header block of any length is accepted iff it has one path, one method and an authority. */
  lemma AcceptanceRule(hs: seq<Header>)
    ensures Accepted(hs) <==> Occurrences(hs, ":path") == 1 && Occurrences(hs, ":method") == 1
                              && Occurrences(hs, ":authority") >= 1
  {
    FieldsFollowHeaders(hs);
    var r := AddAll(hs);
    var required := {Authority, MethodName, PathName};
    forall p: PseudoHeader
      ensures p in required
    {
      match p
      case Authority =>
      case MethodName =>
      case PathName =>
    }
    assert r.pseudo <= required;
  }

  lemma {:induction false} OccursOnce(hs: seq<Header>, i: nat)
    requires i < |hs|
    ensures Occurrences(hs, hs[i].name) >= 1
  {
    if i < |hs| - 1 {
      OccursOnce(hs[..|hs| - 1], i);
    }
  }

  lemma {:induction false} OccursWhere(hs: seq<Header>, i: nat, j: nat)
    requires i < j < |hs| && hs[i].name == hs[j].name
    ensures Occurrences(hs, hs[i].name) >= 2
  {
    if j < |hs| - 1 {
      OccursWhere(hs[..|hs| - 1], i, j);
    } else {
      OccursOnce(hs[..j], i);
    }
  }

  lemma {:induction false} OccursFrom(hs: seq<Header>, name: string)
    requires Occurrences(hs, name) >= 1
    ensures exists i :: 0 <= i < |hs| && hs[i].name == name
  {
    var n := |hs| - 1;
    if hs[n].name != name {
      OccursFrom(hs[..n], name);
      var i :| 0 <= i < n && hs[..n][i].name == name;
      assert hs[i].name == name;
    }
  }

  lemma {:induction false} KeptReads(value: string)
    ensures Reads(value, CharsBeforeNul(value))
  {
    if value != [] && value[0] != NUL {
      KeptReads(value[1..]);
      var kept := CharsBeforeNul(value[1..]);
      if kept + [NUL] <= value[1..] {
        assert value == [value[0]] + value[1..];
        assert [value[0]] + kept + [NUL] == [value[0]] + (kept + [NUL]);
      }
    } else if value != [] {
      assert [] + [NUL] <= value;
    }
  }

  /** Every value reads as some text. */
  lemma {:induction false} ReadsSome(value: string) returns (text: string)
    ensures Reads(value, text)
  {
    text := CharsBeforeNul(value);
    KeptReads(value);
  }

  /** An accepted block says each of what it must. */
  lemma AcceptedSays(hs: seq<Header>, name: string) returns (text: string)
    requires Accepted(hs) && (name == ":path" || name == ":method" || name == ":authority")
    ensures Says(hs, name, text)
  {
    AcceptanceRule(hs);
    OccursFrom(hs, name);
    var i :| 0 <= i < |hs| && hs[i].name == name;
    text := ReadsSome(hs[i].value);
  }

  /** In an accepted block the one path and the one method are the stored ones. */
  lemma AcceptedStores(hs: seq<Header>, path: string, asked: string)
    requires Accepted(hs) && Says(hs, ":path", path) && Says(hs, ":method", asked)
    ensures AddAll(hs).path == Some(path) && AddAll(hs).methodStr == Some(asked) && AddAll(hs).authority.Some?
    ensures (AddAll(hs).verb == Get <==> asked == "GET") && (AddAll(hs).verb == Post <==> asked == "POST")
    ensures AddAll(hs).verb != Unset
  {
    AcceptanceRule(hs);
    FieldsFollowHeaders(hs);
    var i :| 0 <= i < |hs| && hs[i].name == ":path" && Reads(hs[i].value, path);
    forall j | 0 <= j < i
      ensures hs[j].name != ":path"
    {
      if hs[j].name == ":path" {
        OccursWhere(hs, j, i);
      }
    }
    StoresTheValues(hs, i, path);
    var k :| 0 <= k < |hs| && hs[k].name == ":method" && Reads(hs[k].value, asked);
    forall j | 0 <= j < k
      ensures hs[j].name != ":method"
    {
      if hs[j].name == ":method" {
        OccursWhere(hs, j, k);
      }
    }
    StoresTheValues(hs, k, asked);
  }

  // ----- failing allocations -----

  /** What realloc, and strndup if it is called, come to. */
  datatype Allocs = Allocs(grows: bool, dups: bool)

  /** Is the value copied? */
  predicate Copies(r: Req, h: Header) {
    || (h.name == ":path" && r.path.None?)
    || (h.name == ":method" && r.verb == Unset)
    || h.name == ":authority"
  }

  /** A failed realloc loses the text; a failed strndup leaves a null field: for an authority, over the one given
      before, whose flag stays. */
  function TryAdd(r: Req, h: Header, a: Allocs): (Req, int) {
    if !a.grows then (r.(qif := ""), -1)
    else if a.dups || !Copies(r, h) then Add(r, h)
    else
      var r := r.(qif := r.qif + Line(h));
      (if h.name == ":authority" then r.(authority := None)
       else if h.name == ":method" then r.(methodStr := None)
       else r, -1)
  }

  datatype Call = Call(h: Header, allocs: Allocs)

  function HeadersOf(calls: seq<Call>): seq<Header> {
    seq(|calls|, i requires 0 <= i < |calls| => calls[i].h)
  }

  function TryAll(calls: seq<Call>): Req {
    if calls == [] then EMPTY_REQ
    else TryAdd(TryAll(calls[..|calls| - 1]), calls[|calls| - 1].h, calls[|calls| - 1].allocs).0
  }

  predicate AllTried(calls: seq<Call>) {
    calls != [] ==>
      && AllTried(calls[..|calls| - 1])
      && TryAdd(TryAll(calls[..|calls| - 1]), calls[|calls| - 1].h, calls[|calls| - 1].allocs).1 == 0
  }

  /** Every allocation that was asked for succeeded. */
  predicate NoneFailed(calls: seq<Call>) {
    calls != [] ==>
      var init, c := calls[..|calls| - 1], calls[|calls| - 1];
      NoneFailed(init) && c.allocs.grows && (Copies(TryAll(init), c.h) ==> c.allocs.dups)
  }

  lemma {:induction false} TriedIsAdded(calls: seq<Call>)
    ensures AllTried(calls) <==> AllAdded(HeadersOf(calls)) && NoneFailed(calls)
    ensures NoneFailed(calls) ==> TryAll(calls) == AddAll(HeadersOf(calls))
  {
    if calls != [] {
      var init, hs := calls[..|calls| - 1], HeadersOf(calls);
      TriedIsAdded(init);
      assert hs[..|hs| - 1] == HeadersOf(init);
    }
  }

  /** The text grew every time, and every path, method and authority was copied. */
  predicate AllAllocated(calls: seq<Call>) {
    forall i :: 0 <= i < |calls| ==>
      && calls[i].allocs.grows
      && (calls[i].h.name == ":path" || calls[i].h.name == ":method" || calls[i].h.name == ":authority" ==>
            calls[i].allocs.dups)
  }

  /** When every add returned 0, each path and method was the first, so it was copied. */
  lemma {:induction false} TriedIsAllocated(calls: seq<Call>)
    requires AllAdded(HeadersOf(calls))
    ensures NoneFailed(calls) <==> AllAllocated(calls)
  {
    if calls != [] {
      var n := |calls| - 1;
      var init, hs, c := calls[..n], HeadersOf(calls), calls[n];
      assert hs[..n] == HeadersOf(init);
      TriedIsAllocated(init);
      TriedIsAdded(init);
      FieldsFollowHeaders(hs[..n]);
      FieldsFollowHeaders(hs);
      assert forall i :: 0 <= i < n ==> calls[i] == init[i];
      if NoneFailed(init) {
        assert Copies(TryAll(init), c.h) <==> c.h.name == ":path" || c.h.name == ":method" || c.h.name == ":authority";
      }
    }
  }

  /** With allocations that may fail, a header block is accepted if and only if none failed that was asked for, and the
      rule above holds. */
  lemma AcceptanceUnderFailures(calls: seq<Call>)
    ensures AllTried(calls) && FinalCheck(TryAll(calls)) == 0 <==> AllAllocated(calls) && Accepted(HeadersOf(calls))
  {
    TriedIsAdded(calls);
    if AllAdded(HeadersOf(calls)) {
      TriedIsAllocated(calls);
    }
  }

  // ----- the echoed text -----

  function Lines(hs: seq<Header>): string {
    if hs == [] then "" else Line(hs[0]) + Lines(hs[1..])
  }

  lemma {:induction false} LinesSnoc(hs: seq<Header>, h: Header)
    ensures Lines(hs + [h]) == Lines(hs) + Line(h)
  {
    if hs == [] {
      assert Lines([h]) == Line(h) + Lines([]);
    } else {
      LinesSnoc(hs[1..], h);
      assert (hs + [h])[1..] == hs[1..] + [h];
    }
  }

  /** Every header is in the text, in order, a refused duplicate included. */
  lemma {:induction false} QifIsLines(hs: seq<Header>)
    ensures AddAll(hs).qif == Lines(hs)
  {
    if hs != [] {
      QifIsLines(hs[..|hs| - 1]);
      LinesSnoc(hs[..|hs| - 1], hs[|hs| - 1]);
      assert hs == hs[..|hs| - 1] + [hs[|hs| - 1]];
    }
  }

  /** In characters: a tab after the name, a newline after the value. */
  lemma LinesInCharacters()
    ensures Lines([Header("a", "b"), Header("c", "")]) == "a\tb\nc\t\n"
  {
    assert [Header("a", "b"), Header("c", "")][1..] == [Header("c", "")];
    assert Lines([Header("c", "")]) == Line(Header("c", "")) + Lines([]);
  }

  /** Index of the first occurrence of c, or |s|. */
  function IndexOf(s: string, c: char): (at: nat)
    ensures at <= |s| && c !in s[..at] && (at < |s| ==> s[at] == c)
  {
    if s == [] || s[0] == c then 0 else
      var at := IndexOf(s[1..], c);
      assert s[..at + 1] == [s[0]] + s[1..][..at];
      at + 1
  }

  lemma {:induction false} IndexOfFirst(a: string, c: char, rest: string)
    requires c !in a
    ensures IndexOf(a + [c] + rest, c) == |a|
  {
    if a != [] {
      IndexOfFirst(a[1..], c, rest);
      assert (a + [c] + rest)[1..] == a[1..] + [c] + rest;
    }
  }

  /** Reading the text back: a name up to a tab, a value up to the end of the line. */
  function ParseLines(s: string): Option<seq<Header>>
    decreases |s|
  {
    if s == [] then Some([])
    else
      var tab := IndexOf(s, '\t');
      if tab == |s| then None
      else
        var rest := s[tab + 1..];
        var end := IndexOf(rest, '\n');
        if end == |rest| then None
        else
          var more := ParseLines(rest[end + 1..]);
          if more.None? then None else Some([Header(s[..tab], rest[..end])] + more.value)
  }

  lemma SplitAt(a: string, c: char, rest: string)
    requires c !in a
    ensures var s := a + [c] + rest; var at := IndexOf(s, c);
      at < |s| && s[..at] == a && s[at + 1..] == rest
  {
    IndexOfFirst(a, c, rest);
  }

  lemma LineShape(h: Header, rest: string)
    ensures Line(h) + rest == h.name + ['\t'] + (h.value + ['\n'] + rest)
  {
  }

  lemma ParseLine(h: Header, rest: string)
    requires '\t' !in h.name && '\n' !in h.value
    ensures ParseLines(Line(h) + rest)
         == if ParseLines(rest).None? then None else Some([h] + ParseLines(rest).value)
  {
    LineShape(h, rest);
    SplitAt(h.name, '\t', h.value + ['\n'] + rest);
    SplitAt(h.value, '\n', rest);
  }

  /** No name holds a tab, no value a newline. */
  predicate Clean(hs: seq<Header>) {
    forall i :: 0 <= i < |hs| ==> '\t' !in hs[i].name && '\n' !in hs[i].value
  }

  /** The echoed text determines the header list. */
  lemma {:induction false} LinesRoundTrip(hs: seq<Header>)
    requires Clean(hs)
    ensures ParseLines(Lines(hs)) == Some(hs)
  {
    if hs != [] {
      LinesRoundTrip(hs[1..]);
      ParseLine(hs[0], Lines(hs[1..]));
      assert [hs[0]] + hs[1..] == hs;
    }
  }

  // ----- the callback -----

  lemma Assembled(grown: string, before: string, h: Header)
    requires |grown| == |before| + |h.name| + |h.value| + 2
    requires forall k :: 0 <= k < |before| ==> grown[k] == before[k]
    requires forall k :: |before| <= k < |before| + |h.name| ==> grown[k] == h.name[k - |before|]
    requires grown[|before| + |h.name|] == '\t'
    requires forall k :: |before| + |h.name| + 1 <= k < |grown| - 1 ==>
               grown[k] == h.value[k - (|before| + |h.name| + 1)]
    requires grown[|grown| - 1] == '\n'
    ensures grown == before + Line(h)
  {
    var whole := before + Line(h);
    forall k | 0 <= k < |grown|
      ensures grown[k] == whole[k]
    {
    }
  }

  class HeaderBlock {
    var verb: Verb
    var pseudo: set<PseudoHeader>
    var path: Option<string>
    var methodStr: Option<string>
    var authority: Option<string>
    var qifStr: array?<char>
    var qifSz: nat

    ghost predicate Valid()
      reads this
    {
      qifStr != null ==> qifSz == qifStr.Length
    }

    /** No allocation of the text failed; the engine drops a header block after an error. */
    ghost predicate Whole()
      reads this
    {
      qifStr == null ==> qifSz == 0
    }

    ghost function View(): Req
      reads this, qifStr
    {
      Req(verb, pseudo, path, methodStr, authority, if qifStr == null then [] else qifStr[..])
    }

    constructor ()
      ensures Valid() && Whole() && View() == EMPTY_REQ
    {
      verb, pseudo, path, methodStr, authority, qifSz := Unset, {}, None, None, None, 0;
      qifStr := null;
    }

    /** realloc and the four stores: the line is appended to the text. */
    method AppendLine(h: Header, grows: bool)
      requires Valid() && Whole()
      modifies this`qifStr, this`qifSz
      ensures Valid() && (qifStr != null <==> grows)
      ensures grows ==> fresh(qifStr) && qifStr[..] == old(View()).qif + Line(h)
    {
      var nameLen, valueLen := |h.name|, |h.value|;
      if !grows {
        qifStr := null;
        return;
      }
      var grown := new char[qifSz + nameLen + valueLen + 2];
      ghost var text := View().qif;
      if qifStr != null {
        Memcpy(grown, 0, qifStr[..]);
      }
      Memcpy(grown, qifSz, h.name);
      grown[qifSz + nameLen] := '\t';
      Memcpy(grown, qifSz + nameLen + 1, h.value);
      grown[qifSz + nameLen + 1 + valueLen] := '\n';
      Assembled(grown[..], text, h);
      qifStr := grown;
      qifSz := qifSz + nameLen + valueLen + 2;
    }

    /** strndup: the text up to its first terminator, or null. */
    method Strndup(value: string, dups: bool) returns (kept: Option<string>)
      ensures kept == if dups then Some(CharsBeforeNul(value)) else None
    {
      kept := if dups then Some(CharsBeforeNul(value)) else None;
    }

    /** interop_server_hset_add_header; None is the call that ends the header block. */
    method AddHeader(xhdr: Option<Header>, allocs: Allocs) returns (code: int)
      requires Valid() && Whole()
      modifies this
      ensures Valid() && (code != -1 ==> Whole())
      ensures xhdr.None? ==> View() == old(View()) && code == FinalCheck(View())
      ensures xhdr.Some? ==> (View(), code) == TryAdd(old(View()), xhdr.value, allocs)
    {
      if xhdr.None? {
        return if pseudo == {Authority, MethodName, PathName} then 0 else 1;
      }
      var h := xhdr.value;
      AppendLine(h, allocs.grows);
      if qifStr == null {
        return -1;
      }
      if h.name == ":path" {
        if path.Some? {
          return 1;
        }
        path := Strndup(h.value, allocs.dups);
        if path.None? {
          return -1;
        }
        pseudo := pseudo + {PathName};
        return 0;
      }
      if h.name == ":method" {
        if verb != Unset {
          return 1;
        }
        methodStr := Strndup(h.value, allocs.dups);
        if methodStr.None? {
          return -1;
        }
        if methodStr.value == "GET" {
          verb := Get;
        } else if methodStr.value == "POST" {
          verb := Post;
        } else {
          verb := Unsupported;
        }
        pseudo := pseudo + {MethodName};
        return 0;
      }
      if h.name == ":authority" {
        authority := Strndup(h.value, allocs.dups);
        if authority.None? {
          return -1;
        }
        pseudo := pseudo + {Authority};
        return 0;
      }
      return 0;
    }
  }
}
