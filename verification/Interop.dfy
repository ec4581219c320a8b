/** The interop handler: from an accepted header block to the reply it gets. */
module Interop {
  import opened Common
  import opened Address
  import opened Routes
  import opened RouteTable
  import opened HeaderSet
  import opened GenSize
  import IdleText
  import Wire
  import BodyReads
  import BufferedReply
  import GenStream

  /** The index page, the text that is repeated, and the hexadecimal MD5 digest, which is not modelled further. */
  datatype Site = Site(indexHtml: string, text: string, hexDigest: string -> string)

  /** What goes wrong with a request, with what its message mentions. */
  datatype Failure =
    | CannotFetch
    | NoMethod
    | NoPath
    | UnsupportedMethod(methodStr: Option<string>)
    | NoHandler(methodStr: Option<string>, path: string)
    | TooLong(size: nat)

  /** An error or a page from a buffer, a generated file, or, once the body is read, its digest or the headers. */
  datatype Decision =
    | Fail(status: string, failure: Failure)
    | Page(status: string, body: string)
    | Generate(status: string, size: nat, pushes: seq<string>)
    | Digest(status: string)
    | Echo(status: string)

  const ERR_SIZE := 0x100

  /** %zd of a size_t. */
  function SignedDecimal(n: nat): string {
    if n <= LONG_MAX then Decimal(n) else "-" + Decimal(if n < SIZE_RANGE then SIZE_RANGE - n else 0)
  }

  function StringOf(s: Option<string>): string {
    if s.Some? then s.value else "(null)"
  }

  function Message(f: Failure): string {
    match f
    case CannotFetch => "Internal error: cannot fetch header set from stream"
    case NoMethod => "Method is not specified"
    case NoPath => "Path is not specified"
    case UnsupportedMethod(m) => "Method " + StringOf(m) + " is not supported"
    case NoHandler(m, path) => "No handler found for method: " + StringOf(m) + "; path: " + path
    case TooLong(size) => "Response of " + SignedDecimal(size) + " bytes is too long to generate"
  }

  /** What snprintf leaves in a buffer of 256 bytes, without the terminator: the whole text, or its first 255. */
  function Formatted(text: string): (kept: string)
    ensures kept <= text && |kept| == if |text| < 256 then |text| else 255
  {
    if |text| >= ERR_SIZE then text[..ERR_SIZE - 1] else text
  }

  /** An error's body: never empty, inside the buffer, and the whole message when that fits. */
  function ErrorBody(f: Failure): (body: string)
    ensures 0 < |body| < 256 && body <= Message(f)
    ensures |Message(f)| < 256 ==> body == Message(f)
  {
    Formatted(Message(f))
  }

  const PAGE_START := "<html><head><title>MD5 Checksum Result</title></head>\n"
                      + "<body><h1>MD5 Checksum Result</h1>\n<p>MD5 Checksum: <tt>"
  const PAGE_END := "</tt>\n</body></html>\n"

  /** The MD5 page: a digest of 32 digits is on it in full. */
  function Md5Page(digest: string): (page: string)
    ensures page != []
    ensures |digest| == 32 ==>
              page == "<html><head><title>MD5 Checksum Result</title></head>\n"
                      + "<body><h1>MD5 Checksum Result</h1>\n<p>MD5 Checksum: <tt>" + digest + "</tt>\n</body></html>\n"
  {
    Formatted(PAGE_START + digest + PAGE_END)
  }

  /** The push values are the groups after digits and unit, up to the first unused one. */
  function PushList(groups: seq<Option<string>>): seq<string> {
    if groups == [] || groups[0].None? then [] else [groups[0].value] + PushList(groups[1..])
  }

  lemma {:induction false} PushListOf(caps: seq<string>, groups: seq<Option<string>>)
    requires |caps| <= |groups|
    requires forall i :: 0 <= i < |groups| ==> groups[i] == if i < |caps| then Some(caps[i]) else None
    ensures PushList(groups) == caps
  {
    if caps != [] {
      PushListOf(caps[1..], groups[1..]);
      assert [caps[0]] + caps[1..] == caps;
    }
  }

  function GroupText(groups: seq<Option<string>>, i: nat): string {
    if i < |groups| && groups[i].Some? then groups[i].value else ""
  }

  /** The GEN_FILE case, given what the groups captured. */
  function GenDecision(status: string, groups: seq<Option<string>>): Decision
    requires AllDigits(GroupText(groups, 0)) && |groups| >= 2
  {
    var size := AcceptedSize(GroupText(groups, 0), GroupText(groups, 1));
    if size.None? then
      Fail("406", TooLong(Shifted(GroupText(groups, 0), GroupText(groups, 1))))
    else Generate(status, size.value, PushList(groups[2..]))
  }

  function RouteDecision(site: Site, at: nat, groups: seq<Option<string>>): Decision
    requires at < N_ROUTES
    requires IsGen(at) ==> AllDigits(GroupText(groups, 0)) && |groups| >= 2
  {
    var route := ReqMap(at);
    match route.handler
    case IndexHtml => Page(route.status, site.indexHtml)
    case GenFile => GenDecision(route.status, groups)
    case Md5Sum => Digest(route.status)
    case VerHead => Echo(route.status)
  }

  ghost predicate Routed(site: Site, r: Req, found: Option<nat>, groups: seq<Option<string>>, d: Decision)
    requires r.path.Some?
  {
    && Finds(r.path.value, found, groups)
    && match found
       case None => d == Fail("404", NoHandler(r.methodStr, r.path.value))
       case Some(at) =>
         && (IsGen(at) ==> AllDigits(GroupText(groups, 0)) && |groups| >= 2)
         && d == RouteDecision(site, at, groups)
  }

  /** What on_read decides when it first reads the header set; None: it could not be fetched. */
  ghost predicate Answers(site: Site, req: Option<Req>, d: Decision) {
    if req.None? then d == Fail("500", CannotFetch)
    else
      var r := req.value;
      if r.verb == Unset then d == Fail("400", NoMethod)
      else if r.path.None? then d == Fail("400", NoPath)
      else if r.verb == Unsupported then
        d == Fail("501", UnsupportedMethod(r.methodStr))
      else exists found, groups :: Routed(site, r, found, groups, d)
  }

  lemma FoundGroups(at: nat, path: string, groups: seq<Option<string>>)
    requires at < N_ROUTES && IsGen(at) && Finds(path, Some(at), groups)
    ensures |groups| >= 2 && AllDigits(GroupText(groups, 0)) && |GroupText(groups, 1)| <= 1
    ensures PushList(groups[2..]) == seq(at % 4, i requires 0 <= i < at % 4 => GroupText(groups, i + 2))
  {
    var caps := FoundCaps(at, path, groups);
    PushListOf(caps[2..], groups[2..]);
  }

  /** The loop of the GEN_FILE case that copies the push values. */
  method CollectPushes(groups: seq<Option<string>>) returns (pushes: seq<string>)
    ensures pushes == PushList(groups)
  {
    pushes := [];
    var i := 0;
    while i < |groups|
      invariant i <= |groups| && pushes + PushList(groups[i..]) == PushList(groups)
    {
      if groups[i].None? {
        break;
      }
      pushes := pushes + [groups[i].value];
      i := i + 1;
    }
  }

  /** <<= on a 64-bit size. */
  function ShiftLeft(n: nat, power: nat): nat {
    n * power % SIZE_RANGE
  }

  method GenFileCase(status: string, groups: seq<Option<string>>) returns (d: Decision)
    requires |groups| >= 2 && AllDigits(GroupText(groups, 0)) && |GroupText(groups, 1)| <= 1
    ensures d == GenDecision(status, groups)
  {
    var remain, unit := Strtol(GroupText(groups, 0)), GroupText(groups, 1);
    if unit != [] {
      match unit[0] {
        case 'G' => remain := ShiftLeft(remain, 0x4000_0000);
        case 'g' => remain := ShiftLeft(remain, 0x4000_0000);
        case 'M' => remain := ShiftLeft(remain, 0x10_0000);
        case 'm' => remain := ShiftLeft(remain, 0x10_0000);
        case 'K' => remain := ShiftLeft(remain, 0x400);
        case 'k' => remain := ShiftLeft(remain, 0x400);
        case _ =>
      }
      assert unit == [unit[0]];
    }
    assert remain == Shifted(GroupText(groups, 0), unit);
    if remain > MAX_BODY {
      return Fail("406", TooLong(remain));
    }
    var pushes := CollectPushes(groups[2..]);
    d := Generate(status, remain, pushes);
  }

  method OnFirstRead(site: Site, req: Option<Req>) returns (d: Decision)
    ensures Answers(site, req, d)
  {
    if req.None? {
      return Fail("500", CannotFetch);
    }
    var r := req.value;
    if r.verb == Unset {
      return Fail("400", NoMethod);
    } else if r.path.None? {
      return Fail("400", NoPath);
    } else if r.verb == Unsupported {
      return Fail("501", UnsupportedMethod(r.methodStr));
    }
    var found, groups := FindHandler(r.verb, r.path.value);
    if found.None? {
      d := Fail("404", NoHandler(r.methodStr, r.path.value));
      assert Routed(site, r, found, groups, d);
      return;
    }
    var at := found.value;
    EntryShape(at);
    if IsGen(at) {
      FoundGroups(at, r.path.value, groups);
      d := GenFileCase(ReqMap(at).status, groups);
    } else {
      d := RouteDecision(site, at, groups);
    }
    assert Routed(site, r, found, groups, d);
  }

  // ----- what a request can expect -----

  lemma LinesNotEmpty(hs: seq<Header>)
    requires hs != []
    ensures Lines(hs) != []
  {
  }

  lemma {:induction false} DigitPrefixIsRun(s: string)
    ensures DigitPrefix(s) == LongestRun(s, Digit, false)
  {
    if s != [] && IsDigit(s[0]) {
      DigitPrefixIsRun(s[1..]);
    }
  }

  /** strtol is given the path from where the digits start, not the captured group: it reads the same digits. */
  lemma {:induction false} StrtolReadsTheCapture(at: nat, path: string, caps: seq<string>)
    requires at < N_ROUTES && IsGen(at) && Denotes(GenPattern(PrefixOf(at), at % 4), caps, path)
    ensures |PrefixOf(at)| <= |path| && caps != [] && DigitPrefix(path[|PrefixOf(at)|..]) == caps[0]
  {
    GenParts(PrefixOf(at), at % 4, caps, path);
    DigitPrefixIsRun(path[|PrefixOf(at)|..]);
  }

  /** The status that goes with what was decided. */
  function StatusOf(d: Decision): string {
    if !d.Fail? then "200"
    else match d.failure
      case CannotFetch => "500"
      case NoMethod => "400"
      case NoPath => "400"
      case UnsupportedMethod(_) => "501"
      case NoHandler(_, _) => "404"
      case TooLong(_) => "406"
  }

  /** An answer from the table: not one of the earlier failures, and within the limits. */
  predicate FromTable(site: Site, d: Decision) {
    && d.status == StatusOf(d)
    && (d.Fail? ==> d.failure.NoHandler? || (d.failure.TooLong? && d.failure.size > MAX_BODY))
    && (d.Page? ==> d.body == site.indexHtml)
    && (d.Generate? ==> d.size <= MAX_BODY && |d.pushes| <= MAX_PUSHES)
  }

  lemma GenShape(site: Site, groups: seq<Option<string>>)
    requires AllDigits(GroupText(groups, 0)) && |groups| >= 2 && |PushList(groups[2..])| <= MAX_PUSHES
    ensures FromTable(site, GenDecision("200", groups))
  {
  }

  lemma FixedShape(site: Site, at: nat, groups: seq<Option<string>>)
    requires at < N_ROUTES && !IsGen(at)
    ensures FromTable(site, RouteDecision(site, at, groups))
  {
  }

  lemma {:induction false} RoutedShape(site: Site, r: Req, found: Option<nat>, groups: seq<Option<string>>, d: Decision)
    requires r.path.Some?
    ensures Routed(site, r, found, groups, d) ==> FromTable(site, d)
  {
    if Routed(site, r, found, groups, d) && found.Some? {
      if IsGen(found.value) {
        EntryShape(found.value);
        FoundGroups(found.value, r.path.value, groups);
        GenShape(site, groups);
      } else {
        FixedShape(site, found.value, groups);
      }
    }
  }

  lemma {:induction false} RoutedIsUnique(site: Site, r: Req, found: Option<nat>, groups: seq<Option<string>>,
                                          d: Decision,
                                          found': Option<nat>, groups': seq<Option<string>>, d': Decision)
    requires r.path.Some?
    ensures Routed(site, r, found, groups, d) && Routed(site, r, found', groups', d') ==> d == d'
  {
    if Routed(site, r, found, groups, d) && Routed(site, r, found', groups', d') {
      FindsIsUnique(r.path.value, found, groups, found', groups');
      if found.Some? {
        EntryShape(found.value);
      }
    }
  }

  /** Every request has at most one answer: the predicate above leaves the first read no choice. */
  lemma {:induction false} AnswerIsUnique(site: Site, req: Option<Req>, d: Decision, d': Decision)
    ensures Answers(site, req, d) && Answers(site, req, d') ==> d == d'
  {
    if Answers(site, req, d) && Answers(site, req, d')
       && req.Some? && req.value.verb != Unset && req.value.path.Some? && req.value.verb != Unsupported {
      var found, groups :| Routed(site, req.value, found, groups, d);
      var found', groups' :| Routed(site, req.value, found', groups', d');
      RoutedIsUnique(site, req.value, found, groups, d, found', groups', d');
    }
  }

  lemma AcceptedHas(hs: seq<Header>)
    requires Accepted(hs)
    ensures AddAll(hs).verb != Unset && AddAll(hs).path.Some? && AddAll(hs).authority.Some? && AddAll(hs).qif != []
  {
    FieldsFollowHeaders(hs);
    AcceptanceRule(hs);
    QifIsLines(hs);
    LinesNotEmpty(hs);
  }

  ghost predicate AsksGetOrPost(hs: seq<Header>) {
    Says(hs, ":method", "GET") || Says(hs, ":method", "POST")
  }

  lemma AcceptedMethod(hs: seq<Header>)
    requires Accepted(hs)
    ensures forall asked :: Says(hs, ":method", asked) ==>
              && AddAll(hs).methodStr == Some(asked)
              && (AddAll(hs).verb == Get <==> asked == "GET") && (AddAll(hs).verb == Post <==> asked == "POST")
    ensures AsksGetOrPost(hs) <==> AddAll(hs).verb == Get || AddAll(hs).verb == Post
  {
    var path := AcceptedSays(hs, ":path");
    forall asked | Says(hs, ":method", asked)
      ensures && AddAll(hs).methodStr == Some(asked)
              && (AddAll(hs).verb == Get <==> asked == "GET") && (AddAll(hs).verb == Post <==> asked == "POST")
    {
      AcceptedStores(hs, path, asked);
    }
    var asked := AcceptedSays(hs, ":method");
    AcceptedStores(hs, path, asked);
  }

  /** An accepted header block never gets 400 or 500: it gets 501 exactly when its method is neither GET nor
      POST, and otherwise an answer from the table. The text a header echo replies with is not empty. */
  lemma {:induction false} AcceptedIsAnswered(site: Site, hs: seq<Header>, d: Decision)
    requires Accepted(hs)
    ensures Answers(site, Some(AddAll(hs)), d) ==>
              if AsksGetOrPost(hs) then FromTable(site, d)
              else forall asked :: Says(hs, ":method", asked) ==> d == Fail("501", UnsupportedMethod(Some(asked)))
    ensures forall asked :: Says(hs, ":method", asked) ==> (AsksGetOrPost(hs) <==> asked == "GET" || asked == "POST")
    ensures AddAll(hs).qif != []
  {
    AcceptedHas(hs);
    FieldsFollowHeaders(hs);
    AcceptedMethod(hs);
    var r := AddAll(hs);
    if Answers(site, Some(r), d) && r.verb != Unsupported {
      var found, groups :| Routed(site, r, found, groups, d);
      RoutedShape(site, r, found, groups, d);
    }
  }

  // ----- generated-file paths -----

  /** What a generated-file path with these parts gets: the size is the product as the code computes it, and a path
      with more pushes than the table has entries for is not found. */
  function GenAnswer(methodStr: Option<string>, path: string, caps: seq<string>): Decision
    requires GenCaps(caps)
  {
    if |caps| - 2 > MAX_PUSHES then Fail("404", NoHandler(methodStr, path))
    else match AcceptedSize(caps[0], caps[1])
      case None => Fail("406", TooLong(Shifted(caps[0], caps[1])))
      case Some(size) => Generate("200", size, caps[2..])
  }

  lemma GenFromCaps(status: string, caps: seq<string>, groups: seq<Option<string>>)
    requires 2 <= |caps| <= MAX_PUSHES + 2 && AllDigits(caps[0]) && groups == MatchArray(caps)
    ensures AllDigits(GroupText(groups, 0))
    ensures GenDecision(status, groups) == match AcceptedSize(caps[0], caps[1])
      case None => Fail("406", TooLong(Shifted(caps[0], caps[1])))
      case Some(size) => Generate(status, size, caps[2..])
  {
    PushListOf(caps[2..], groups[2..]);
  }

  lemma FoundGenPath(site: Site, r: Req, file: bool, caps: seq<string>)
    requires GenCaps(caps) && r.path == Some(GenPath(file, caps)) && |caps| - 2 <= MAX_PUSHES
    ensures Routed(site, r, Some((if file then 8 else 4) + (|caps| - 2)), MatchArray(caps),
                   GenAnswer(r.methodStr, GenPath(file, caps), caps))
  {
    var at := (if file then 8 else 4) + (|caps| - 2);
    GenPathRoundTrip(file, caps);
    EntryShape(at);
    GenFromCaps("200", caps, MatchArray(caps));
  }

  lemma RoutesGenPath(site: Site, r: Req, file: bool, caps: seq<string>)
    requires GenCaps(caps) && r.path == Some(GenPath(file, caps))
    ensures exists found, groups :: Routed(site, r, found, groups, GenAnswer(r.methodStr, GenPath(file, caps), caps))
  {
    if |caps| - 2 <= MAX_PUSHES {
      FoundGenPath(site, r, file, caps);
    } else {
      GenPathRoundTrip(file, caps);
      assert Routed(site, r, None, [], GenAnswer(r.methodStr, GenPath(file, caps), caps));
    }
  }

  /** Every such path has one answer, whichever of GET and POST asked: the file it asks for, or 406, or, with
      too many pushes, 404. */
  lemma {:induction false} GenPathIsAnswered(site: Site, r: Req, file: bool, caps: seq<string>, d: Decision)
    requires GenCaps(caps) && r.path == Some(GenPath(file, caps)) && (r.verb == Get || r.verb == Post)
    ensures Answers(site, Some(r), d) <==> d == GenAnswer(r.methodStr, GenPath(file, caps), caps)
  {
    RoutesGenPath(site, r, file, caps);
    assert Answers(site, Some(r), GenAnswer(r.methodStr, GenPath(file, caps), caps));
    AnswerIsUnique(site, Some(r), d, GenAnswer(r.methodStr, GenPath(file, caps), caps));
  }

  /** The stream's side of a generated reply: the length told once, the promises before it, bytes of the text, and
      the end exactly with the last of them. */
  ghost predicate Serves(site: Site, req: Req, size: nat, pushes: seq<string>, run: Run<GenStream.WriteCall>)
    requires site.text != []
  {
    var w := GenStream.After(GenStream.Plan(site.text, "200", size, pushes, req.authority.Some?), run).wire;
    && w.ordered
    && (w.head.Some? ==> w.head.value == Wire.Head("200", Some(size))
                         && w.promises == if req.authority.Some? then pushes else [])
    && w.body == IdleText.Cyclic(site.text, 0, |w.body|) && |w.body| <= size
    && (w.fin <==> |w.body| == size && w.writes > 0)
  }

  lemma {:induction false} ServesAlways(site: Site, req: Req, size: nat, pushes: seq<string>,
                                        run: Run<GenStream.WriteCall>)
    requires site.text != []
    ensures Serves(site, req, size, pushes, run)
  {
    GenStream.WholeBody(GenStream.Plan(site.text, "200", size, pushes, req.authority.Some?), run);
  }

  /** The request that asks for 2^64 bytes is answered, and served, with none. */
  lemma {:induction false} WrappedSizeIsServedEmpty(site: Site, r: Req, d: Decision, run: Run<GenStream.WriteCall>)
    requires site.text != [] && r.path == Some("/17179869184G") && (r.verb == Get || r.verb == Post)
    ensures Answers(site, Some(r), d) <==> d == Generate("200", 0, [])
    ensures Serves(site, r, 0, [], run)
  {
    var caps := ["17179869184", "G"];
    SizeCanWrap();
    assert GenPath(false, caps) == "/17179869184G" by {
      GenPatternTails(PLAIN, 0);
      assert Print(FromUnit(0), caps[1..]) == "G" + Print(PushPieces("?push=", 0), caps[2..]);
      assert Print(FromDigits(0), caps) == "17179869184" + "G";
    }
    GenPathIsAnswered(site, r, false, caps, d);
    ServesAlways(site, r, 0, [], run);
  }

  /** End to end: an accepted header block with a generated-file path of any size and any number of pushes. Its one
      answer is the one above; and if that is to generate, every schedule of write callbacks serves exactly the size
      announced, which is the size asked for if and only if that is at most 2 GiB, and all pushes are promised. */
  lemma {:induction false} GeneratedFileEndToEnd(site: Site, hs: seq<Header>, file: bool, caps: seq<string>,
                                                 asked: string, run: Run<GenStream.WriteCall>)
    requires Accepted(hs) && site.text != [] && GenCaps(caps)
    requires Says(hs, ":path", GenPath(file, caps)) && Says(hs, ":method", asked)
    requires asked == "GET" || asked == "POST"
    ensures AddAll(hs).authority.Some?
    ensures var answer := GenAnswer(Some(asked), GenPath(file, caps), caps);
      && (forall d :: Answers(site, Some(AddAll(hs)), d) <==> d == answer)
      && (answer.Generate? ==>
            && (answer.size == Asked(caps[0], caps[1]) <==> Asked(caps[0], caps[1]) <= 0x8000_0000)
            && Serves(site, AddAll(hs), answer.size, caps[2..], run))
  {
    AcceptedStores(hs, GenPath(file, caps), asked);
    var r, answer := AddAll(hs), GenAnswer(Some(asked), GenPath(file, caps), caps);
    forall d
      ensures Answers(site, Some(r), d) <==> d == answer
    {
      GenPathIsAnswered(site, r, file, caps, d);
    }
    if answer.Generate? {
      SizeRule(caps[0], caps[1]);
      ServesAlways(site, r, answer.size, caps[2..], run);
    }
  }

  // ----- replies from a buffer -----

  /** What the reply buffer holds; `body` is the request's body. */
  function ReplyBuffer(site: Site, req: Option<Req>, body: string, d: Decision): string
    requires !d.Generate? && (d.Echo? ==> req.Some?)
  {
    match d
    case Fail(_, failure) => ErrorBody(failure)
    case Page(_, page) => page
    case Digest(_) => Md5Page(site.hexDigest(body))
    case Echo(_) => req.value.qif
  }

  /** The stream's side of such a reply: a prefix of the buffer under the buffer's own length, the end exactly with
      its last byte, and the headers first unless sending them failed. */
  ghost predicate Sends(status: string, buf: string, run: Run<BufferedReply.WriteCall>) {
    var w := BufferedReply.After(status, buf, run).wire;
    && w.body <= buf
    && (w.head.Some? ==> w.head.value == Wire.Head(status, Some(|buf|)))
    && (w.fin <==> w.body == buf)
    && (w.ordered <==> BufferedReply.HeadersWentOut(run) || w.writes == 0)
  }

  lemma {:induction false} SendsAlways(status: string, buf: string, run: Run<BufferedReply.WriteCall>)
    requires buf != []
    ensures Sends(status, buf, run)
  {
    BufferedReply.WholeReply(status, buf, run);
  }

  /** What that buffer is: the error's message, the page, the digest of the body, or the headers as lines. */
  lemma BufferHolds(site: Site, hs: seq<Header>, body: string, d: Decision)
    requires !d.Generate?
    ensures var buf := ReplyBuffer(site, Some(AddAll(hs)), body, d);
      && (d.Fail? ==> buf == Formatted(Message(d.failure)))
      && (d.Page? ==> buf == d.body)
      && (d.Digest? ==> buf == Md5Page(site.hexDigest(body)))
      && (d.Echo? ==> buf == Lines(hs))
  {
    QifIsLines(hs);
  }

  lemma {:induction false} AcceptedStatus(site: Site, hs: seq<Header>, d: Decision)
    requires Accepted(hs)
    ensures Answers(site, Some(AddAll(hs)), d) ==> d.status == StatusOf(d) && (d.Page? ==> d.body == site.indexHtml)
  {
    AcceptedIsAnswered(site, hs, d);
    var asked := AcceptedSays(hs, ":method");
    assert Says(hs, ":method", asked);
  }

  lemma BufferIsNotEmpty(site: Site, hs: seq<Header>, body: string, d: Decision)
    requires Accepted(hs) && !d.Generate? && (d.Page? ==> d.body != [])
    ensures ReplyBuffer(site, Some(AddAll(hs)), body, d) != []
  {
    AcceptedHas(hs);
  }

  /** Whatever an accepted header block gets that is not generated comes from a buffer that is not empty, under
      the status that goes with it. */
  lemma {:induction false} BufferedEndToEnd(site: Site, hs: seq<Header>, body: string, d: Decision,
                                            run: Run<BufferedReply.WriteCall>)
    requires Accepted(hs) && site.indexHtml != [] && !d.Generate?
    ensures Answers(site, Some(AddAll(hs)), d) ==>
              d.status == StatusOf(d) && Sends(d.status, ReplyBuffer(site, Some(AddAll(hs)), body, d), run)
  {
    AcceptedStatus(site, hs, d);
    if Answers(site, Some(AddAll(hs)), d) {
      BufferIsNotEmpty(site, hs, body, d);
      SendsAlways(d.status, ReplyBuffer(site, Some(AddAll(hs)), body, d), run);
    }
  }

  lemma {:induction false} FixedPathIsAnswered(site: Site, r: Req, at: nat, d: Decision)
    requires at < 4 && r.path.Some? && SameFolded(r.path.value, ReqMap(at).target.path)
    requires r.verb == Get || r.verb == Post
    ensures Answers(site, Some(r), d) <==> d == RouteDecision(site, at, [])
  {
    assert Routed(site, r, Some(at), [], RouteDecision(site, at, []));
    AnswerIsUnique(site, Some(r), d, RouteDecision(site, at, []));
  }

  /** A client that posts to /cgi-bin/verify-headers.cgi, in any mix of case, gets its own header block back: a
      prefix of its lines, and when the reply has ended, text that parses to the header list. */
  lemma {:induction false} EchoEndToEnd(site: Site, hs: seq<Header>, path: string, run: Run<BufferedReply.WriteCall>)
    requires Accepted(hs) && Says(hs, ":path", path) && SameFolded(path, "/cgi-bin/verify-headers.cgi")
    requires AsksGetOrPost(hs)
    ensures forall d :: Answers(site, Some(AddAll(hs)), d) <==> d == Echo("200")
    ensures Sends("200", Lines(hs), run)
    ensures BufferedReply.After("200", Lines(hs), run).wire.fin && Clean(hs) ==>
              ParseLines(BufferedReply.After("200", Lines(hs), run).wire.body) == Some(hs)
  {
    var r := AddAll(hs);
    var asked := if Says(hs, ":method", "GET") then "GET" else "POST";
    AcceptedHas(hs);
    AcceptedStores(hs, path, asked);
    QifIsLines(hs);
    forall d
      ensures Answers(site, Some(r), d) <==> d == Echo("200")
    {
      FixedPathIsAnswered(site, r, 3, d);
    }
    SendsAlways("200", Lines(hs), run);
    if Clean(hs) {
      LinesRoundTrip(hs);
    }
  }

  /** A client that posts a body to /cgi-bin/md5sum.cgi gets the digest of that body, in whatever pieces it came. */
  lemma {:induction false} DigestEndToEnd(site: Site, r: Req, path: string, body: string, input: Run<BodyReads.Readf>,
                                          run: Run<BufferedReply.WriteCall>)
    requires r.path == Some(path) && SameFolded(path, "/cgi-bin/md5sum.cgi") && (r.verb == Get || r.verb == Post)
    requires BodyReads.FromBody(body, input) && BodyReads.After(input).done && !BodyReads.After(input).exited
    ensures forall d :: Answers(site, Some(r), d) <==> d == Digest("200")
    ensures Sends("200", Md5Page(site.hexDigest(BodyReads.After(input).hashed)), run)
    ensures BodyReads.After(input).hashed == body
  {
    forall d
      ensures Answers(site, Some(r), d) <==> d == Digest("200")
    {
      FixedPathIsAnswered(site, r, 2, d);
    }
    BodyReads.HashesTheBody(body, input);
    SendsAlways("200", Md5Page(site.hexDigest(body)), run);
  }
}
