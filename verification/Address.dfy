/** IPv4 peers, their dotted-quad text and the scan that recovers the last octet from it. */
module Address {
  import opened Common

  datatype Ipv4 = Ipv4(a: Byte, b: Byte, c: Byte, d: Byte)

  const NUL := '\0'

  /** A C string's characters, without its terminator. */
  type CString = s: string | NUL !in s witness ""

  /** What inet_ntoa prints. */
  function Ntoa(ip: Ipv4): (s: CString) {
    Decimal(ip.a) + "." + Decimal(ip.b) + "." + Decimal(ip.c) + "." + Decimal(ip.d)
  }

  lemma DecimalInText()
    ensures Decimal(192) == "192" && Decimal(168) == "168" && Decimal(12) == "12" && Decimal(0) == "0"
  {
    assert Decimal(1) == "1" && Decimal(19) == "19" && Decimal(16) == "16";
  }

  lemma NtoaInText()
    ensures Ntoa(Ipv4(192, 168, 0, 12)) == "192.168.0.12"
  {
    DecimalInText();
  }

  predicate IsSpace(c: char) {
    c == ' ' || '\t' <= c <= '\r'
  }

  function DigitPrefix(s: string): (p: string)
    ensures AllDigits(p)
  {
    if s == [] || !IsDigit(s[0]) then [] else [s[0]] + DigitPrefix(s[1..])
  }

  /** atoi: leading blanks, an optional sign, then the longest run of digits. */
  function Atoi(s: string): int {
    if s == [] then 0
    else if IsSpace(s[0]) then Atoi(s[1..])
    else if s[0] == '-' then 0 - Value(DigitPrefix(s[1..])) as int
    else if s[0] == '+' then Value(DigitPrefix(s[1..]))
    else Value(DigitPrefix(s))
  }

  lemma {:induction false} DigitPrefixStops(digits: string, rest: string)
    requires AllDigits(digits) && (rest != [] ==> !IsDigit(rest[0]))
    ensures DigitPrefix(digits + rest) == digits
  {
    if digits != [] {
      DigitPrefixStops(digits[1..], rest);
      assert (digits + rest)[1..] == digits[1..] + rest;
    } else {
      assert digits + rest == rest;
    }
  }

  /** Digits are read up to the first other character, after blanks and a sign. */
  lemma {:induction false} AtoiReads(digits: string, rest: string)
    requires digits != [] && AllDigits(digits) && (rest != [] ==> !('0' <= rest[0] <= '9'))
    ensures Atoi(digits + rest) == Value(digits)
    ensures Atoi("-" + digits + rest) == 0 - Value(digits) as int && Atoi("+" + digits + rest) == Value(digits)
    ensures Atoi(" " + digits + rest) == Value(digits)
  {
    DigitPrefixStops(digits, rest);
    assert ("-" + digits + rest)[1..] == digits + rest == ("+" + digits + rest)[1..];
    assert (" " + digits + rest)[1..] == digits + rest;
  }

  /** The dot the backward scan stops at; the scan never looks at index 0. */
  predicate IsLastDot(addr: string, dot: int) {
    1 <= dot < |addr| && addr[dot] == '.' && '.' !in addr[dot + 1..]
  }

  /** Up to the first terminator. */
  function CharsBeforeNul(s: string): (r: CString)
  {
    if s == [] || s[0] == NUL then [] else [s[0]] + CharsBeforeNul(s[1..])
  }

  lemma {:induction false} CharsBeforeNulOf(s: string, rest: string)
    requires NUL !in s
    ensures CharsBeforeNul(s + [NUL] + rest) == s
  {
    var t := s + [NUL] + rest;
    if s != [] {
      CharsBeforeNulOf(s[1..], rest);
      assert t[1..] == s[1..] + [NUL] + rest;
    }
  }

  lemma {:induction false} PlainIsKept(s: string)
    requires NUL !in s
    ensures CharsBeforeNul(s) == s
  {
    if s != [] {
      PlainIsKept(s[1..]);
    }
  }

  /** strncpy: n characters of src, padded with terminators. */
  method Strncpy(dst: array<char>, src: CString, n: nat)
    requires n <= dst.Length
    modifies dst
    ensures forall k :: 0 <= k < n ==> dst[k] == if k < |src| then src[k] else NUL
    ensures forall k :: n <= k < dst.Length ==> dst[k] == old(dst[k])
  {
    for k := 0 to n
      invariant forall j :: 0 <= j < k ==> dst[j] == if j < |src| then src[j] else NUL
      invariant forall j :: k <= j < dst.Length ==> dst[j] == old(dst[j])
    {
      dst[k] := if k < |src| then src[k] else NUL;
    }
  }

  /** The requires is what keeps the copy inside `octet` and the copied text terminated. */
  method ExtractLastOctet(addr: CString) returns (r: int)
    requires exists dot :: IsLastDot(addr, dot) && |addr| - dot <= 4
    ensures forall dot :: IsLastDot(addr, dot) ==> r == Atoi(addr[dot + 1..])
    ensures forall dot :: IsLastDot(addr, dot) && dot + 1 < |addr| && AllDigits(addr[dot + 1..]) ==>
              r == Value(addr[dot + 1..])
  {
    ghost var dot :| IsLastDot(addr, dot) && |addr| - dot <= 4;
    var octet := new char[4];
    var index, n := 0, 0;
    var i := |addr|;
    while i > 0
      invariant dot <= i <= |addr|
      invariant n == |addr| - i
      invariant index == 0
    {
      if i < |addr| && addr[i] == '.' {
        index := i + 1;
        break;
      }
      n := n + 1;
      i := i - 1;
    }
    assert i == dot;
    ghost var tail := addr[dot + 1..];
    Strncpy(octet, addr[index..], n);
    assert octet[..] == tail + [NUL] + octet[n..];
    CharsBeforeNulOf(tail, octet[n..]);
    r := Atoi(CharsBeforeNul(octet[..]));
    if tail != [] && AllDigits(tail) {
      AtoiReads(tail, []);
      assert tail + [] == tail;
    }
  }

  lemma AtoiOfDecimal(n: nat)
    ensures Atoi(Decimal(n)) == n
  {
    AtoiReads(Decimal(n), []);
    assert Decimal(n) + [] == Decimal(n);
    ValueOfDecimal(n);
  }

  /** The scan and the printer are inverse on the fourth octet. */
  lemma LastOctetOfNtoa(ip: Ipv4)
    ensures exists dot :: IsLastDot(Ntoa(ip), dot) && |Ntoa(ip)| - dot <= 4
    ensures forall dot :: IsLastDot(Ntoa(ip), dot) ==> Atoi(Ntoa(ip)[dot + 1..]) == ip.d
  {
    var s, tail := Ntoa(ip), Decimal(ip.d);
    var at := |s| - |tail| - 1;
    assert s[at + 1..] == tail;
    DecimalLength(ip.d);
    AtoiOfDecimal(ip.d);
    assert IsLastDot(s, at);
    assert forall dot :: IsLastDot(s, dot) ==> dot == at;
  }
}
