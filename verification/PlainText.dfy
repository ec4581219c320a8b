/** The front end's rules in literal text and numbers, apart from the definitions that compute them. */
module PlainText {
  import opened Common
  import opened Routes
  import opened RouteTable
  import opened HeaderSet
  import opened GenSize
  import opened Interop

  // ----- paths -----

  function MorePushes(pushes: seq<string>): string {
    if pushes == [] then "" else "&push=" + pushes[0] + MorePushes(pushes[1..])
  }

  lemma {:induction false} PushesInText(sep: string, pushes: seq<string>)
    ensures Print(PushPieces(sep, |pushes|), pushes)
         == if pushes == [] then "" else sep + pushes[0] + MorePushes(pushes[1..])
    decreases |pushes|
  {
    if pushes != [] {
      var pat := PushPieces(sep, |pushes|);
      PushesInText("&push=", pushes[1..]);
      assert pat[1..][1..] == PushPieces("&push=", |pushes| - 1);
      assert Print(pat[1..], pushes) == pushes[0] + Print(PushPieces("&push=", |pushes| - 1), pushes[1..]);
    }
  }

  lemma PushesByCount(pushes: seq<string>)
    requires |pushes| <= 3
    ensures var printed := if pushes == [] then "" else "?push=" + pushes[0] + MorePushes(pushes[1..]);
      && (|pushes| == 1 ==> printed == "?push=" + pushes[0])
      && (|pushes| == 2 ==> printed == "?push=" + pushes[0] + "&push=" + pushes[1])
      && (|pushes| == 3 ==> printed == "?push=" + pushes[0] + "&push=" + pushes[1] + "&push=" + pushes[2])
  {
    if |pushes| == 2 {
      assert MorePushes(pushes[1..]) == "&push=" + pushes[1] + MorePushes(pushes[2..]);
    } else if |pushes| == 3 {
      assert MorePushes(pushes[2..]) == "&push=" + pushes[2] + MorePushes(pushes[3..]);
      assert pushes[1..][1..] == pushes[2..];
      assert MorePushes(pushes[1..]) == "&push=" + pushes[1] + MorePushes(pushes[2..]);
      assert "?push=" + pushes[0] + ("&push=" + pushes[1] + ("&push=" + pushes[2]))
          == "?push=" + pushes[0] + "&push=" + pushes[1] + "&push=" + pushes[2];
    }
  }

  lemma DigitsPrint(n: nat, caps: seq<string>)
    requires 2 <= |caps|
    ensures Print(FromDigits(n), caps) == caps[0] + (caps[1] + Print(PushPieces("?push=", n), caps[2..]))
  {
    GenPatternTails(PLAIN, n);
    assert caps[1..][1..] == caps[2..];
    assert Print(FromUnit(n), caps[1..]) == caps[1] + Print(PushPieces("?push=", n), caps[2..]);
  }

  lemma Regroup(a: string, b: string, c: string, d: string)
    ensures a + (b + (c + d)) == a + b + c + d
  {
  }

  lemma GenPathStarts(file: bool, caps: seq<string>)
    requires 2 <= |caps|
    ensures GenPath(file, caps)
         == (if file then "/file-" else "/") + caps[0] + caps[1] + Print(PushPieces("?push=", |caps| - 2), caps[2..])
  {
    var prefix, n := if file then FILE else PLAIN, |caps| - 2;
    GenPatternTails(prefix, n);
    DigitsPrint(n, caps);
    assert GenPath(file, caps) == prefix + Print(FromDigits(n), caps);
    Regroup(prefix, caps[0], caps[1], Print(PushPieces("?push=", n), caps[2..]));
  }

  /** The printed form, spelled out for every number of pushes the table knows. */
  lemma GenPathInText(file: bool, caps: seq<string>)
    requires 2 <= |caps| <= 5
    ensures var start := (if file then "/file-" else "/") + caps[0] + caps[1];
      && (|caps| == 2 ==> GenPath(file, caps) == start)
      && (|caps| == 3 ==> GenPath(file, caps) == start + ("?push=" + caps[2]))
      && (|caps| == 4 ==> GenPath(file, caps) == start + ("?push=" + caps[2] + "&push=" + caps[3]))
      && (|caps| == 5 ==>
            GenPath(file, caps) == start + ("?push=" + caps[2] + "&push=" + caps[3] + "&push=" + caps[4]))
  {
    GenPathStarts(file, caps);
    PushesInText("?push=", caps[2..]);
    PushesByCount(caps[2..]);
  }

  // ----- sizes -----

  /** What a unit multiplies by. */
  predicate Multiplies(unit: string, times: nat) {
    || (unit == "" && times == 1)
    || ((unit == "K" || unit == "k") && times == 1024)
    || ((unit == "M" || unit == "m") && times == 1048576)
    || ((unit == "G" || unit == "g") && times == 1073741824)
  }

  lemma {:induction false} SizesInNumbers(digits: string, unit: string, times: nat)
    requires AllDigits(digits) && Multiplies(unit, times)
    ensures Value(digits) * times <= 2147483648 ==> AcceptedSize(digits, unit) == Some(Value(digits) * times)
    ensures 2147483648 < Value(digits) * times < 18446744073709551616 ==> AcceptedSize(digits, unit) == None
    ensures Value(digits) >= 9223372036854775807 ==> AcceptedSize(digits, unit) == None
    ensures Value(digits) < 9223372036854775807 ==>
              (AcceptedSize(digits, unit).Some? <==> Value(digits) * times % 18446744073709551616 <= 2147483648)
  {
    SizeRule(digits, unit);
    assert Factor(unit) == times;
    assert Asked(digits, unit) == Value(digits) * times;
  }

  lemma RefusedSize(digits: string, unit: string, times: nat)
    requires AllDigits(digits) && Multiplies(unit, times) && Value(digits) < 9223372036854775807
    ensures Value(digits) * times < 18446744073709551616 ==> Shifted(digits, unit) == Value(digits) * times
  {
    assert Factor(unit) == times;
  }

  /** Digits and a unit, plain or behind "file-", in numbers: up to 2 GiB are generated, more is refused, unless the
      product reaches 2^64. */
  lemma {:induction false} SizedPathIsAnswered(site: Site, r: Req, file: bool, digits: string, unit: string, times: nat,
                                               d: Decision)
    requires digits != [] && AllDigits(digits) && Multiplies(unit, times) && (r.verb == Get || r.verb == Post)
    requires r.path == Some((if file then "/file-" else "/") + digits + unit)
    ensures Value(digits) * times <= 2147483648 ==>
              (Answers(site, Some(r), d) <==> d == Generate("200", Value(digits) * times, []))
    ensures 2147483648 < Value(digits) * times < 18446744073709551616 && Value(digits) < 9223372036854775807 ==>
              (Answers(site, Some(r), d) <==> d == Fail("406", TooLong(Value(digits) * times)))
    ensures Value(digits) >= 9223372036854775807 ==> (Answers(site, Some(r), d) ==> d.status == "406")
  {
    var caps := [digits, unit];
    GenPathInText(file, caps);
    GenPathIsAnswered(site, r, file, caps, d);
    SizesInNumbers(digits, unit, times);
    if Value(digits) < 9223372036854775807 {
      RefusedSize(digits, unit, times);
    }
    assert caps[2..] == [];
  }

  /** The same with pushes. */
  lemma {:induction false} PushedPathIsAnswered(site: Site, r: Req, file: bool, digits: string, unit: string,
                                                times: nat,
                                                pushes: seq<string>, d: Decision)
    requires digits != [] && AllDigits(digits) && Multiplies(unit, times) && (r.verb == Get || r.verb == Post)
    requires Value(digits) * times <= 2147483648 && 1 <= |pushes| <= 3
    requires forall i :: 0 <= i < |pushes| ==> '&' !in pushes[i]
    requires r.path == Some((if file then "/file-" else "/") + digits + unit
                            + if |pushes| == 1 then "?push=" + pushes[0]
                              else if |pushes| == 2 then "?push=" + pushes[0] + "&push=" + pushes[1]
                              else "?push=" + pushes[0] + "&push=" + pushes[1] + "&push=" + pushes[2])
    ensures Answers(site, Some(r), d) <==> d == Generate("200", Value(digits) * times, pushes)
  {
    var caps := [digits, unit] + pushes;
    GenPathInText(file, caps);
    GenPathIsAnswered(site, r, file, caps, d);
    SizesInNumbers(digits, unit, times);
    assert caps[2..] == pushes;
  }

  /** Any other letter after the digits, or none of them: no such page. */
  lemma OtherUnit(c: char, i: nat)
    requires i < N_ROUTES && c !in "0123456789KMGkmg"
    ensures !Hits(ReqMap(i), "/5" + [c])
  {
    var path := "/5" + [c];
    EntryShape(i);
    if Hits(ReqMap(i), path) {
      SecondCharacter(i, path);
      assert path[1] == '5';
      assert IsGen(i) && PrefixOf(i) == PLAIN;
      var caps :| Denotes(GenPattern(PLAIN, i % 4), caps, path);
      GenParts(PLAIN, i % 4, caps, path);
    }
  }

  lemma {:induction false} OtherUnitIsNotFound(site: Site, r: Req, c: char, d: Decision)
    requires c !in "0123456789KMGkmg" && r.path == Some("/5" + [c]) && (r.verb == Get || r.verb == Post)
    ensures Answers(site, Some(r), d) <==> d == Fail("404", NoHandler(r.methodStr, "/5" + [c]))
  {
    forall i | 0 <= i < N_ROUTES
      ensures !Hits(ReqMap(i), "/5" + [c])
    {
      OtherUnit(c, i);
    }
    var answer := Fail("404", NoHandler(r.methodStr, "/5" + [c]));
    assert Routed(site, r, None, [], answer);
    AnswerIsUnique(site, Some(r), d, answer);
  }

  // ----- fixed paths -----

  lemma LettersFold()
    ensures SameFolded("ABCDEFGHIJKLMNOPQRSTUVWXYZ", "abcdefghijklmnopqrstuvwxyz")
    ensures !SameFolded("@", "`") && !SameFolded("[", "{") && !SameFolded("a", "b") && !SameFolded("a", "")
  {
    assert Lower("@"[0]) != Lower("`"[0]) && Lower("["[0]) != Lower("{"[0]) && Lower("a"[0]) != Lower("b"[0]);
  }

  lemma {:induction false} FixedPathsInText(site: Site, r: Req, d: Decision)
    requires r.verb == Get || r.verb == Post
    ensures r.path == Some("/") || r.path == Some("/index.html") || r.path == Some("/INDEX.html") ==>
              (Answers(site, Some(r), d) <==> d == Page("200", site.indexHtml))
    ensures r.path == Some("/cgi-bin/md5sum.cgi") ==> (Answers(site, Some(r), d) <==> d == Digest("200"))
    ensures r.path == Some("/cgi-bin/verify-headers.cgi") ==> (Answers(site, Some(r), d) <==> d == Echo("200"))
  {
    if r.path == Some("/") {
      FixedPathIsAnswered(site, r, 0, d);
    } else if r.path == Some("/index.html") || r.path == Some("/INDEX.html") {
      FixedPathIsAnswered(site, r, 1, d);
    } else if r.path == Some("/cgi-bin/md5sum.cgi") {
      FixedPathIsAnswered(site, r, 2, d);
    } else if r.path == Some("/cgi-bin/verify-headers.cgi") {
      FixedPathIsAnswered(site, r, 3, d);
    }
  }

  /** The replies that wait for the body are those of the entries flagged for it. */
  lemma WaitsForBody(site: Site, at: nat)
    requires at < N_ROUTES && !IsGen(at)
    ensures ReqMap(at).wantBody <==> RouteDecision(site, at, []).Digest? || RouteDecision(site, at, []).Echo?
  {
  }

  // ----- errors -----

  /** A request refused before the table is searched. */
  lemma RefusalsInText(site: Site, r: Req, d: Decision)
    ensures Answers(site, None, d) <==> d == Fail("500", CannotFetch)
    ensures r.verb == Unset ==> (Answers(site, Some(r), d) <==> d == Fail("400", NoMethod))
    ensures r.verb != Unset && r.path == None ==> (Answers(site, Some(r), d) <==> d == Fail("400", NoPath))
    ensures r.verb == Unsupported && r.path != None ==>
              (Answers(site, Some(r), d) <==> d == Fail("501", UnsupportedMethod(r.methodStr)))
  {
  }

  /** The bodies of error replies, word for word, as long as what they quote leaves room. */
  lemma ErrorsInText()
    ensures ErrorBody(CannotFetch) == "Internal error: cannot fetch header set from stream"
    ensures ErrorBody(NoMethod) == "Method is not specified"
    ensures ErrorBody(NoPath) == "Path is not specified"
  {
  }

  lemma QuotingErrorsInText(asked: string, path: string)
    requires |asked| + |path| <= 200
    ensures ErrorBody(UnsupportedMethod(Some(asked))) == "Method " + asked + " is not supported"
    ensures ErrorBody(NoHandler(Some(asked), path)) == "No handler found for method: " + asked + "; path: " + path
  {
  }

  lemma SizeErrorInText(size: nat)
    ensures size <= 9223372036854775807 && |Decimal(size)| <= 200 ==>
              ErrorBody(TooLong(size)) == "Response of " + Decimal(size) + " bytes is too long to generate"
    ensures 9223372036854775807 < size < 18446744073709551616 && |Decimal(18446744073709551616 - size)| <= 200 ==>
              ErrorBody(TooLong(size))
              == "Response of " + ("-" + Decimal(18446744073709551616 - size)) + " bytes is too long to generate"
  {
    var shown := SignedDecimal(size);
    assert Message(TooLong(size)) == "Response of " + shown + " bytes is too long to generate";
  }
}
