/** The table itself, the search through it, and why its order does not matter. */
module RouteTable {
  import opened Common
  import opened Routes

  datatype Verb = Unset | Get | Post | Unsupported

  datatype Handler = IndexHtml | Md5Sum | VerHead | GenFile

  datatype Target = Fixed(path: string) | Regex(pat: Pattern)

  datatype Route = Route(verb: Verb, target: Target, handler: Handler, status: string, wantBody: bool)

  function PushPieces(sep: string, pushes: nat): Pattern
    decreases pushes
  {
    if pushes == 0 then [] else [Text(sep), Group(NotAmp, false, false)] + PushPieces("&push=", pushes - 1)
  }

  function FromUnit(pushes: nat): Pattern {
    [Group(Unit, false, true)] + PushPieces("?push=", pushes)
  }

  function FromDigits(pushes: nat): Pattern {
    [Group(Digit, true, false)] + FromUnit(pushes)
  }

  /** prefix, digits, an optional unit, and that many push values. */
  function GenPattern(prefix: string, pushes: nat): Pattern {
    [Text(prefix)] + FromDigits(pushes)
  }

  lemma GenPatternTails(prefix: string, pushes: nat)
    ensures GenPattern(prefix, pushes)[1..] == FromDigits(pushes)
    ensures FromDigits(pushes)[1..] == FromUnit(pushes)
    ensures FromUnit(pushes)[1..] == PushPieces("?push=", pushes)
  {
  }

  const PLAIN := "/"
  const FILE := "/file-"
  const MAX_PUSHES := 3

  function GenRoute(prefix: string, pushes: nat): Route {
    Route(Get, Regex(GenPattern(prefix, pushes)), GenFile, "200", false)
  }

  const N_ROUTES := 12

  /** The entries of req_maps, by index. */
  function ReqMap(i: nat): Route
    requires i < N_ROUTES
  {
    if i == 0 then Route(Get, Fixed("/"), IndexHtml, "200", false)
    else if i == 1 then Route(Get, Fixed("/index.html"), IndexHtml, "200", false)
    else if i == 2 then Route(Post, Fixed("/cgi-bin/md5sum.cgi"), Md5Sum, "200", true)
    else if i == 3 then Route(Post, Fixed("/cgi-bin/verify-headers.cgi"), VerHead, "200", true)
    else if i < 8 then GenRoute(PLAIN, i - 4)
    else GenRoute(FILE, i - 8)
  }

  ghost predicate Hits(route: Route, path: string) {
    match route.target
    case Fixed(p) => SameFolded(path, p)
    case Regex(pat) => exists caps :: Denotes(pat, caps, path)
  }

  // ----- every pattern of the table is separated -----

  lemma {:induction false} PushPiecesSeparated(sep: string, pushes: nat)
    requires sep == "?push=" || sep == "&push="
    ensures Separated(PushPieces(sep, pushes))
    ensures forall c :: MayStart(PushPieces(sep, pushes), c) ==> c == sep[0]
    decreases pushes
  {
    if pushes > 0 {
      PushPiecesSeparated("&push=", pushes - 1);
      var pat, rest := PushPieces(sep, pushes), PushPieces("&push=", pushes - 1);
      assert pat[1..][1..] == rest;
      assert forall c :: In(c, NotAmp) ==> !MayStart(rest, c);
    }
  }

  lemma GenPatternSeparated(prefix: string, pushes: nat)
    requires prefix != []
    ensures Separated(GenPattern(prefix, pushes))
  {
    PushPiecesSeparated("?push=", pushes);
    GenPatternTails(prefix, pushes);
    assert Separated(FromUnit(pushes));
    assert forall c :: MayStart(FromUnit(pushes), c) ==> In(c, Unit) || c == '?';
    assert Separated(FromDigits(pushes));
  }

  // ----- no path hits two entries -----

  /** Two push lists over the same text have the same length. */
  lemma {:induction false} PushCountUnique(sep: string, m: nat, n: nat, caps: seq<string>, caps': seq<string>,
                                           s: string)
    requires sep == "?push=" || sep == "&push="
    requires Denotes(PushPieces(sep, m), caps, s) && Denotes(PushPieces(sep, n), caps', s)
    ensures m == n && |caps| == m
    decreases m
  {
    if m > 0 && n > 0 {
      var p, p' := PushPieces(sep, m), PushPieces(sep, n);
      PushPiecesSeparated(sep, m);
      PushPiecesSeparated(sep, n);
      var s1 := s[|sep|..];
      CaptureIsRun(p[1..], caps, s1);
      CaptureIsRun(p'[1..], caps', s1);
      assert p[1..][1..] == PushPieces("&push=", m - 1) && p'[1..][1..] == PushPieces("&push=", n - 1);
      PushCountUnique("&push=", m - 1, n - 1, caps[1..], caps'[1..], s1[|caps[0]|..]);
    }
  }

  /** The digits, unit and push list of a generated-file path, whichever pattern found them. */
  lemma GenParts(prefix: string, pushes: nat, caps: seq<string>, s: string)
    requires prefix != [] && Denotes(GenPattern(prefix, pushes), caps, s)
    ensures |prefix| < |s| && SameFolded(prefix, s[..|prefix|]) && IsDigit(s[|prefix|])
    ensures |caps| >= 2
    ensures caps[0] == LongestRun(s[|prefix|..], Digit, false) && caps[0] != []
    ensures caps[1] == LongestRun(s[|prefix|..][|caps[0]|..], Unit, true)
    ensures Denotes(PushPieces("?push=", pushes), caps[2..], s[|prefix|..][|caps[0]|..][|caps[1]|..])
  {
    var rest := s[|prefix|..];
    GenPatternSeparated(prefix, pushes);
    GenPatternTails(prefix, pushes);
    CaptureIsRun(FromDigits(pushes), caps, rest);
    CaptureIsRun(FromUnit(pushes), caps[1..], rest[|caps[0]|..]);
    assert caps[1..][1..] == caps[2..];
    assert caps[0][0] == rest[0];
  }

  lemma GenPushCountUnique(prefix: string, m: nat, n: nat, caps: seq<string>, caps': seq<string>, s: string)
    requires prefix != []
    requires Denotes(GenPattern(prefix, m), caps, s) && Denotes(GenPattern(prefix, n), caps', s)
    ensures m == n && caps == caps' && |caps| == m + 2
  {
    GenParts(prefix, m, caps, s);
    GenParts(prefix, n, caps', s);
    PushCountUnique("?push=", m, n, caps[2..], caps'[2..], s[|prefix|..][|caps[0]|..][|caps[1]|..]);
    GenPatternSeparated(prefix, m);
    RegExecIsDenotes(GenPattern(prefix, m), s, caps);
    RegExecIsDenotes(GenPattern(prefix, n), s, caps');
  }

  predicate IsGen(i: nat) {
    4 <= i < 12
  }

  function PrefixOf(i: nat): string
    requires IsGen(i)
  {
    if i < 8 then PLAIN else FILE
  }

  /** The second character tells the groups of entries apart. */
  function SecondOf(i: nat): char
    requires i < 12
  {
    if i == 0 then '\n' else if i == 1 then 'i' else if i < 4 then 'c' else if i < 8 then '0' else 'f'
  }

  lemma EntryShape(i: nat)
    requires i < N_ROUTES
    ensures IsGen(i) ==> ReqMap(i) == GenRoute(PrefixOf(i), i % 4)
    ensures !IsGen(i) ==> ReqMap(i).target.Fixed? && |ReqMap(i).target.path| > (if i == 0 then 0 else 1)
                          && (i > 0 ==> ReqMap(i).target.path[1] == SecondOf(i))
    ensures ReqMap(0).target.path == "/"
  {
  }

  lemma SecondCharacter(i: nat, path: string)
    requires i < N_ROUTES && Hits(ReqMap(i), path)
    ensures i == 0 ==> |path| == 1
    ensures i > 0 ==> |path| > 1
    ensures 4 <= i < 8 ==> IsDigit(path[1])
    ensures 0 < i < 4 || 8 <= i ==> Lower(path[1]) == SecondOf(i)
  {
    EntryShape(i);
    if IsGen(i) {
      var caps :| Denotes(GenPattern(PrefixOf(i), i % 4), caps, path);
      GenParts(PrefixOf(i), i % 4, caps, path);
      if 8 <= i {
        assert path[..6][1] == path[1] && FILE[1] == 'f';
      }
    }
  }

  /** A path hits at most one entry, so the order of the table is irrelevant. */
  lemma RoutesAreDisjoint(i: nat, j: nat, path: string)
    requires i < N_ROUTES && j < N_ROUTES && Hits(ReqMap(i), path) && Hits(ReqMap(j), path)
    ensures i == j
  {
    SecondCharacter(i, path);
    SecondCharacter(j, path);
    EntryShape(i);
    EntryShape(j);
    if IsGen(i) && IsGen(j) {
      var caps :| Denotes(GenPattern(PrefixOf(i), i % 4), caps, path);
      var caps' :| Denotes(GenPattern(PrefixOf(j), j % 4), caps', path);
      assert i < 8 <==> j < 8;
      GenPushCountUnique(PrefixOf(i), i % 4, j % 4, caps, caps', path);
    } else {
      assert |ReqMap(2).target.path| != |ReqMap(3).target.path|;
    }
  }

  // ----- the search -----

  /** What regexec leaves for the groups: captured text, or None past the last group. */
  function MatchArray(caps: seq<string>): seq<Option<string>>
    requires |caps| <= MAX_PUSHES + 2
  {
    seq(MAX_PUSHES + 2, i requires 0 <= i => if i < |caps| then Some(caps[i]) else None)
  }

  /** The entry a path hits, if any, and its captures. The method plays no part. */
  ghost predicate Finds(path: string, found: Option<nat>, groups: seq<Option<string>>) {
    match found
    case None => forall i :: 0 <= i < N_ROUTES ==> !Hits(ReqMap(i), path)
    case Some(at) =>
      && at < N_ROUTES
      && Hits(ReqMap(at), path)
      && (ReqMap(at).target.Regex? ==>
            exists caps ::
              Denotes(ReqMap(at).target.pat, caps, path) && |caps| == at % 4 + 2 && groups == MatchArray(caps))
  }

  method FindHandler(verb: Verb, path: string) returns (found: Option<nat>, groups: seq<Option<string>>)
    ensures Finds(path, found, groups)
  {
    groups := [];
    for i := 0 to N_ROUTES
      invariant forall j :: 0 <= j < i ==> !Hits(ReqMap(j), path)
    {
      EntryShape(i);
      match ReqMap(i).target {
        case Regex(pat) =>
          GenPatternSeparated(PrefixOf(i), i % 4);
          var caps := RegExec(pat, path);
          if caps.Some? {
            RegExecIsDenotes(pat, path, caps.value);
            GenPushCountUnique(PrefixOf(i), i % 4, i % 4, caps.value, caps.value, path);
            return Some(i), MatchArray(caps.value);
          }
          forall c
            ensures !Denotes(pat, c, path)
          {
            RegExecIsDenotes(pat, path, c);
          }
        case Fixed(p) =>
          if SameFolded(path, p) {
            return Some(i), groups;
          }
      }
    }
    found := None;
  }

  /** The search has one possible answer. */
  lemma {:induction false} FindsIsUnique(path: string, found: Option<nat>, groups: seq<Option<string>>,
                                         found': Option<nat>, groups': seq<Option<string>>)
    requires Finds(path, found, groups) && Finds(path, found', groups')
    ensures found == found'
    ensures found.Some? && ReqMap(found.value).target.Regex? ==> groups == groups'
  {
    if found.Some? && found'.Some? {
      RoutesAreDisjoint(found.value, found'.value, path);
      EntryShape(found.value);
      if ReqMap(found.value).target.Regex? {
        var pat := ReqMap(found.value).target.pat;
        var caps :| Denotes(pat, caps, path) && |caps| == found.value % 4 + 2 && groups == MatchArray(caps);
        var caps' :| Denotes(pat, caps', path) && |caps'| == found.value % 4 + 2 && groups' == MatchArray(caps');
        GenPushCountUnique(PrefixOf(found.value), found.value % 4, found.value % 4, caps, caps', path);
      }
    }
  }

  lemma CapsShape(prefix: string, n: nat, caps: seq<string>, path: string)
    requires prefix != [] && Denotes(GenPattern(prefix, n), caps, path)
    ensures |caps| == n + 2 && AllDigits(caps[0]) && caps[0] != [] && |caps[1]| <= 1
  {
    GenParts(prefix, n, caps, path);
    GenPushCountUnique(prefix, n, n, caps, caps, path);
  }

  /** The captures behind the groups found at a generated-file entry. */
  lemma FoundCaps(at: nat, path: string, groups: seq<Option<string>>) returns (caps: seq<string>)
    requires at < N_ROUTES && IsGen(at) && Finds(path, Some(at), groups)
    ensures |caps| == at % 4 + 2 && groups == MatchArray(caps)
    ensures caps[0] != [] && AllDigits(caps[0]) && |caps[1]| <= 1
  {
    EntryShape(at);
    caps :| Denotes(ReqMap(at).target.pat, caps, path) && |caps| == at % 4 + 2 && groups == MatchArray(caps);
    CapsShape(PrefixOf(at), at % 4, caps, path);
  }

  // ----- generated-file paths, printed and matched -----

  /** Digits, a unit or nothing, and push values. */
  predicate GenCaps(caps: seq<string>) {
    && |caps| >= 2
    && caps[0] != [] && AllDigits(caps[0])
    && |caps[1]| <= 1 && (caps[1] != [] ==> In(caps[1][0], Unit))
    && forall i :: 2 <= i < |caps| ==> '&' !in caps[i]
  }

  function GenPath(file: bool, caps: seq<string>): string
    requires |caps| >= 2
  {
    Print(GenPattern(if file then FILE else PLAIN, |caps| - 2), caps)
  }

  lemma {:induction false} PushesFit(sep: string, pushes: seq<string>)
    requires forall i :: 0 <= i < |pushes| ==> '&' !in pushes[i]
    ensures AllFit(PushPieces(sep, |pushes|), pushes)
    decreases |pushes|
  {
    if pushes != [] {
      PushesFit("&push=", pushes[1..]);
      var pat := PushPieces(sep, |pushes|);
      assert pat[1..][1..] == PushPieces("&push=", |pushes| - 1);
      assert '&' !in pushes[0];
    }
  }

  lemma GenFits(prefix: string, n: nat, caps: seq<string>)
    requires |caps| == n + 2 && GenCaps(caps)
    ensures AllFit(GenPattern(prefix, n), caps)
  {
    PushesFit("?push=", caps[2..]);
    GenPatternTails(prefix, n);
    assert caps[1..][1..] == caps[2..];
    assert AllFit(FromUnit(n), caps[1..]);
    assert AllFit(FromDigits(n), caps);
  }

  lemma GenPathFound(at: nat, caps: seq<string>, path: string)
    requires at < N_ROUTES && IsGen(at) && |caps| == at % 4 + 2 && Denotes(GenPattern(PrefixOf(at), at % 4), caps, path)
    ensures Finds(path, Some(at), MatchArray(caps))
  {
    EntryShape(at);
  }

  lemma NoEntryForMore(prefix: string, n: nat, caps: seq<string>, path: string)
    requires (prefix == PLAIN || prefix == FILE) && n > MAX_PUSHES && Denotes(GenPattern(prefix, n), caps, path)
    ensures forall i :: 0 <= i < N_ROUTES ==> !Hits(ReqMap(i), path)
  {
    GenParts(prefix, n, caps, path);
    forall i | 0 <= i < N_ROUTES
      ensures !Hits(ReqMap(i), path)
    {
      if Hits(ReqMap(i), path) {
        EntryShape(i);
        SecondCharacter(i, path);
        if prefix == FILE {
          assert path[..6][1] == path[1] && FILE[1] == 'f';
        }
        assert IsGen(i) && PrefixOf(i) == prefix;
        var caps' :| Denotes(GenPattern(prefix, i % 4), caps', path);
        GenPushCountUnique(prefix, n, i % 4, caps, caps', path);
      }
    }
  }

  /** The round trip: a printed path with at most three pushes is found, at its own entry, with its own
      parts; with more it is found nowhere. */
  lemma GenPathRoundTrip(file: bool, caps: seq<string>)
    requires GenCaps(caps)
    ensures var n := |caps| - 2;
      && (n <= MAX_PUSHES ==> Finds(GenPath(file, caps), Some((if file then 8 else 4) + n), MatchArray(caps)))
      && (n > MAX_PUSHES ==> Finds(GenPath(file, caps), None, []))
  {
    var prefix, n := if file then FILE else PLAIN, |caps| - 2;
    GenFits(prefix, n, caps);
    PrintDenotes(GenPattern(prefix, n), caps);
    if n <= MAX_PUSHES {
      GenPathFound((if file then 8 else 4) + n, caps, GenPath(file, caps));
    } else {
      NoEntryForMore(prefix, n, caps, GenPath(file, caps));
    }
  }

  /** So whatever a search returns for a printed path is that entry and those parts. */
  lemma GenPathFoundOnly(file: bool, caps: seq<string>, found: Option<nat>, groups: seq<Option<string>>)
    requires GenCaps(caps) && |caps| - 2 <= MAX_PUSHES && Finds(GenPath(file, caps), found, groups)
    ensures found == Some((if file then 8 else 4) + (|caps| - 2)) && groups == MatchArray(caps)
  {
    var at := (if file then 8 else 4) + (|caps| - 2);
    GenPathRoundTrip(file, caps);
    EntryShape(at);
    FindsIsUnique(GenPath(file, caps), Some(at), MatchArray(caps), found, groups);
  }
}
