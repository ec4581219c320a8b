/** The route table: what the regular expressions denote, and which entry a path selects. */
module Routes {
  import opened Common

  // ----- patterns -----

  datatype Class = Digit | Unit | NotAmp

  predicate In(c: char, cls: Class) {
    match cls
    case Digit => IsDigit(c)
    case Unit => c in "KMGkmg"  // the expressions are compiled case-insensitively
    case NotAmp => c != '&'
  }

  /** A literal, or a parenthesised group over one character class: ([0-9][0-9]*), ([KMG]?), ([^&]*). */
  datatype Piece = Text(lit: string) | Group(cls: Class, nonEmpty: bool, single: bool)

  type Pattern = seq<Piece>

  function Lower(c: char): char {
    if 'A' <= c <= 'Z' then ((c as int) + 32) as char else c
  }

  predicate SameFolded(a: string, b: string) {
    |a| == |b| && forall i :: 0 <= i < |a| ==> Lower(a[i]) == Lower(b[i])
  }

  predicate Fits(c: string, p: Piece)
    requires p.Group?
  {
    && (forall i :: 0 <= i < |c| ==> In(c[i], p.cls))
    && (p.nonEmpty ==> c != [])
    && (p.single ==> |c| <= 1)
  }

  /** The whole of s matches pat, its groups capturing `caps` in order. */
  predicate Denotes(pat: Pattern, caps: seq<string>, s: string) {
    if pat == [] then caps == [] && s == []
    else match pat[0]
      case Text(lit) =>
        |lit| <= |s| && SameFolded(lit, s[..|lit|]) && Denotes(pat[1..], caps, s[|lit|..])
      case Group(_, _, _) =>
        caps != [] && caps[0] <= s && Fits(caps[0], pat[0]) && Denotes(pat[1..], caps[1..], s[|caps[0]|..])
  }

  /** Could a string that pat denotes begin with this character? */
  predicate MayStart(pat: Pattern, c: char) {
    if pat == [] then false
    else match pat[0]
      case Text(lit) => lit != [] && Lower(lit[0]) == Lower(c)
      case Group(cls, nonEmpty, _) => In(c, cls) || (!nonEmpty && MayStart(pat[1..], c))
  }

  /** No group can end early: what follows it never begins with a character of its class. */
  ghost predicate Separated(pat: Pattern) {
    pat != [] ==>
      && Separated(pat[1..])
      && (pat[0].Text? ==> pat[0].lit != [])
      && (pat[0].Group? ==> forall c :: In(c, pat[0].cls) ==> !MayStart(pat[1..], c))
  }

  lemma {:induction false} StartsAsItMay(pat: Pattern, caps: seq<string>, s: string)
    requires Separated(pat) && Denotes(pat, caps, s) && s != []
    ensures MayStart(pat, s[0])
  {
    match pat[0]
    case Text(lit) => assert lit[0] == pat[0].lit[0] && s[..|lit|][0] == s[0];
    case Group(_, _, _) =>
      if caps[0] == [] {
        StartsAsItMay(pat[1..], caps[1..], s);
      } else {
        assert caps[0][0] == s[0];
      }
  }

  /** The longest run of the class at the start of s, or its first character for `single`. */
  function LongestRun(s: string, cls: Class, single: bool): (r: string)
    ensures r <= s && (forall i :: 0 <= i < |r| ==> In(r[i], cls)) && (single ==> |r| <= 1)
  {
    if s == [] || !In(s[0], cls) then []
    else if single then [s[0]]
    else [s[0]] + LongestRun(s[1..], cls, single)
  }

  lemma {:induction false} RunOfPrefix(c: string, s: string, cls: Class, single: bool)
    requires c <= s && (forall i :: 0 <= i < |c| ==> In(c[i], cls)) && (single ==> |c| <= 1)
    requires |c| < |s| ==> !In(s[|c|], cls)
    ensures LongestRun(s, cls, single) == c
  {
    if c != [] {
      assert c[0] == s[0];
      if !single {
        assert forall i :: 0 <= i < |c| - 1 ==> c[1..][i] == c[i + 1];
        RunOfPrefix(c[1..], s[1..], cls, single);
      }
    }
  }

  /** A capture is the longest run, so it does not depend on what follows in the pattern. */
  lemma CaptureIsRun(pat: Pattern, caps: seq<string>, s: string)
    requires Separated(pat) && pat != [] && pat[0].Group? && Denotes(pat, caps, s)
    ensures caps[0] == LongestRun(s, pat[0].cls, pat[0].single)
  {
    var rest := s[|caps[0]|..];
    if rest != [] {
      StartsAsItMay(pat[1..], caps[1..], rest);
      assert !In(rest[0], pat[0].cls);
      if pat[0].single && |caps[0]| == 1 {
        assert LongestRun(s, pat[0].cls, true) == [s[0]] == caps[0] by {
          assert In(caps[0][0], pat[0].cls);
        }
      } else {
        RunOfPrefix(caps[0], s, pat[0].cls, pat[0].single);
      }
    } else {
      RunOfPrefix(caps[0], s, pat[0].cls, pat[0].single);
    }
  }

  /** regexec, for these patterns: the groups take what they can, left to right. */
  function RegExec(pat: Pattern, s: string): Option<seq<string>> {
    if pat == [] then (if s == [] then Some([]) else None)
    else match pat[0]
      case Text(lit) =>
        if |lit| <= |s| && SameFolded(lit, s[..|lit|]) then RegExec(pat[1..], s[|lit|..]) else None
      case Group(cls, nonEmpty, single) =>
        var c := LongestRun(s, cls, single);
        if nonEmpty && c == [] then None
        else
          var rest := RegExec(pat[1..], s[|c|..]);
          if rest.Some? then Some([c] + rest.value) else None
  }

  lemma {:induction false} RegExecComplete(pat: Pattern, s: string, caps: seq<string>)
    requires Separated(pat) && Denotes(pat, caps, s)
    ensures RegExec(pat, s) == Some(caps)
  {
    if pat != [] {
      match pat[0]
      case Text(lit) => RegExecComplete(pat[1..], s[|lit|..], caps);
      case Group(_, _, _) =>
        CaptureIsRun(pat, caps, s);
        RegExecComplete(pat[1..], s[|caps[0]|..], caps[1..]);
        assert [caps[0]] + caps[1..] == caps;
    }
  }

  lemma {:induction false} RegExecSound(pat: Pattern, s: string)
    requires RegExec(pat, s).Some?
    ensures Denotes(pat, RegExec(pat, s).value, s)
  {
    if pat != [] {
      match pat[0]
      case Text(lit) => RegExecSound(pat[1..], s[|lit|..]);
      case Group(cls, _, single) =>
        var c := LongestRun(s, cls, single);
        RegExecSound(pat[1..], s[|c|..]);
        assert RegExec(pat, s).value[1..] == RegExec(pat[1..], s[|c|..]).value;
    }
  }

  /** On separated patterns the matcher is sound and complete, and there is at most one match. */
  lemma RegExecIsDenotes(pat: Pattern, s: string, caps: seq<string>)
    requires Separated(pat)
    ensures Denotes(pat, caps, s) <==> RegExec(pat, s) == Some(caps)
  {
    if Denotes(pat, caps, s) {
      RegExecComplete(pat, s, caps);
    }
    if RegExec(pat, s).Some? {
      RegExecSound(pat, s);
    }
  }

  /** The canonical text with these captures. */
  function Print(pat: Pattern, caps: seq<string>): string {
    if pat == [] then []
    else match pat[0]
      case Text(lit) => lit + Print(pat[1..], caps)
      case Group(_, _, _) => if caps == [] then [] else caps[0] + Print(pat[1..], caps[1..])
  }

  predicate AllFit(pat: Pattern, caps: seq<string>) {
    if pat == [] then caps == []
    else match pat[0]
      case Text(_) => AllFit(pat[1..], caps)
      case Group(_, _, _) => caps != [] && Fits(caps[0], pat[0]) && AllFit(pat[1..], caps[1..])
  }

  /** Printing any fitting captures and matching gives them back. */
  lemma {:induction false} PrintDenotes(pat: Pattern, caps: seq<string>)
    requires AllFit(pat, caps)
    ensures Denotes(pat, caps, Print(pat, caps))
  {
    if pat != [] {
      var s := Print(pat, caps);
      match pat[0]
      case Text(lit) =>
        PrintDenotes(pat[1..], caps);
        assert s[..|lit|] == lit && s[|lit|..] == Print(pat[1..], caps);
      case Group(_, _, _) =>
        PrintDenotes(pat[1..], caps[1..]);
        assert s[|caps[0]|..] == Print(pat[1..], caps[1..]);
    }
  }

  /** Whatever matches is, up to the case of its letters, the printed form of what it captured. */
  lemma {:induction false} DenotesIsPrint(pat: Pattern, caps: seq<string>, s: string)
    requires Denotes(pat, caps, s)
    ensures AllFit(pat, caps) && SameFolded(s, Print(pat, caps))
  {
    if pat != [] {
      var printed := Print(pat, caps);
      var n := if pat[0].Text? then |pat[0].lit| else |caps[0]|;
      DenotesIsPrint(pat[1..], if pat[0].Text? then caps else caps[1..], s[n..]);
      forall i | 0 <= i < |s|
        ensures |s| == |printed| && Lower(s[i]) == Lower(printed[i])
      {
        if i < n {
          assert s[..n][i] == s[i];
        } else {
          assert s[n..][i - n] == s[i] && printed[n..][i - n] == printed[i];
        }
      }
    }
  }
}
