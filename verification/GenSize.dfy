/** The size a generated-file path asks for: 64-bit conversion, shift and limit. */
module GenSize {
  import opened Common

  const LONG_MAX := 0x7FFF_FFFF_FFFF_FFFF
  const MAX_BODY := 0x8000_0000

  /** strtol saturates. */
  function Strtol(digits: string): nat
    requires AllDigits(digits)
  {
    Min(Value(digits), LONG_MAX)
  }

  /** Two to the 30, 20, 10 or 0. */
  function Factor(unit: string): nat {
    if unit == "G" || unit == "g" then 0x4000_0000
    else if unit == "M" || unit == "m" then 0x10_0000
    else if unit == "K" || unit == "k" then 0x400
    else 1
  }

  /** gfc->remain after the shift, which drops what leaves 64 bits. */
  function Shifted(digits: string, unit: string): nat
    requires AllDigits(digits)
  {
    Strtol(digits) * Factor(unit) % SIZE_RANGE
  }

  function AcceptedSize(digits: string, unit: string): Option<nat>
    requires AllDigits(digits)
  {
    if Shifted(digits, unit) > MAX_BODY then None else Some(Shifted(digits, unit))
  }

  function Asked(digits: string, unit: string): nat
    requires AllDigits(digits)
  {
    Value(digits) * Factor(unit)
  }

  /** What strtol saturates at is too long under every unit: 2^64 minus the factor, or itself. */
  lemma SaturatedIsTooLong(factor: nat)
    requires factor == 1 || factor == 0x400 || factor == 0x10_0000 || factor == 0x4000_0000
    ensures LONG_MAX * factor % SIZE_RANGE > MAX_BODY
  {
    if factor > 1 {
      var q := factor / 2 - 1;
      assert LONG_MAX * factor == q * SIZE_RANGE + (SIZE_RANGE - factor);
    }
  }

  lemma SmallProduct(n: nat, factor: nat)
    requires factor > 0 && n * factor <= MAX_BODY
    ensures n <= MAX_BODY && n * factor % SIZE_RANGE == n * factor
  {
    assert n <= n * factor;
  }

  /** Saturated numbers are refused whatever the unit; otherwise the size is the product modulo 2^64,
      accepted iff that is at most 2 GiB; and an accepted size is what was asked for exactly when
      what was asked for is at most 2 GiB. */
  lemma SizeRule(digits: string, unit: string)
    requires AllDigits(digits)
    ensures Value(digits) >= 9223372036854775807 ==> AcceptedSize(digits, unit) == None
    ensures Value(digits) < LONG_MAX ==>
      AcceptedSize(digits, unit) == (var s := Asked(digits, unit) % SIZE_RANGE; if s <= MAX_BODY then Some(s) else None)
    ensures Asked(digits, unit) < SIZE_RANGE ==> (AcceptedSize(digits, unit).Some? <==> Asked(digits, unit) <= MAX_BODY)
    ensures AcceptedSize(digits, unit).Some? ==>
      (AcceptedSize(digits, unit).value == Asked(digits, unit) <==> Asked(digits, unit) <= MAX_BODY)
  {
    SaturatedIsTooLong(Factor(unit));
    if Asked(digits, unit) <= MAX_BODY {
      SmallProduct(Value(digits), Factor(unit));
    }
  }

  /** One more digit. */
  lemma ValueSnoc(s: string, c: char)
    requires AllDigits(s) && IsDigit(c)
    ensures AllDigits(s + [c]) && Value(s + [c]) == 10 * Value(s) + (c as int - '0' as int)
  {
    assert (s + [c])[..|s|] == s;
  }

  lemma ValueOf17179()
    ensures AllDigits("17179") && Value("17179") == 17179
  {
    assert Value("") == 0;
    ValueSnoc("", '1');
    ValueSnoc("1", '7');
    ValueSnoc("17", '1');
    ValueSnoc("171", '7');
    ValueSnoc("1717", '9');
    assert "" + ['1'] == "1" && "1" + ['7'] == "17" && "17" + ['1'] == "171" && "171" + ['7'] == "1717"
           && "1717" + ['9'] == "17179";
  }

  lemma ValueOf17179869()
    ensures AllDigits("17179869") && Value("17179869") == 17179869
  {
    ValueOf17179();
    ValueSnoc("17179", '8');
    ValueSnoc("171798", '6');
    ValueSnoc("1717986", '9');
    assert "17179" + ['8'] == "171798" && "171798" + ['6'] == "1717986" && "1717986" + ['9'] == "17179869";
  }

  lemma ValueOf17179869184()
    ensures AllDigits("17179869184") && Value("17179869184") == 17179869184
  {
    ValueOf17179869();
    ValueSnoc("17179869", '1');
    ValueSnoc("171798691", '8');
    ValueSnoc("1717986918", '4');
    assert "17179869" + ['1'] == "171798691" && "171798691" + ['8'] == "1717986918"
           && "1717986918" + ['4'] == "17179869184";
  }

  /** The 2 GiB limit is not kept for every request: 17179869184G, which is 2^64 bytes, is accepted as empty. */
  lemma SizeCanWrap()
    ensures AllDigits("17179869184")
    ensures Asked("17179869184", "G") > MAX_BODY && AcceptedSize("17179869184", "G") == Some(0)
  {
    ValueOf17179869184();
  }
}
