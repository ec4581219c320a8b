/** Small definitions shared by every module: optional values, bytes and decimal numerals. */
module Common {

  datatype Option<+T> = None | Some(value: T)

  /** A finite run of events, latest last. */
  datatype Run<E> = Start | Then(before: Run<E>, last: E)

  /** `long` is `short` followed by any number of further events. */
  ghost predicate Extends<E>(long: Run<E>, short: Run<E>) {
    long == short || (long.Then? && Extends(long.before, short))
  }

  function Length<E>(run: Run<E>): nat {
    if run.Start? then 0 else Length(run.before) + 1
  }

  /** Two to the 64: a size_t holds less. */
  const SIZE_RANGE := 0x1_0000_0000_0000_0000

  type Byte = x: int | 0 <= x < 256

  function Min(a: nat, b: nat): nat {
    if a < b then a else b
  }

  function Sum(xs: seq<nat>): nat {
    if xs == [] then 0 else Sum(xs[..|xs| - 1]) + xs[|xs| - 1]
  }

  lemma {:induction false} SumOfConcat(xs: seq<nat>, ys: seq<nat>)
    ensures Sum(xs + ys) == Sum(xs) + Sum(ys)
  {
    if ys == [] {
      assert xs + ys == xs;
    } else {
      SumOfConcat(xs, ys[..|ys| - 1]);
      assert (xs + ys)[..|xs + ys| - 1] == xs + ys[..|ys| - 1];
    }
  }

  lemma SumOfOne(x: nat)
    ensures Sum([x]) == x && Sum([]) == 0
  {
    assert [x][..0] == [];
  }

  predicate IsDigit(c: char) {
    '0' <= c <= '9'
  }

  predicate AllDigits(s: string) {
    forall i :: 0 <= i < |s| ==> IsDigit(s[i])
  }

  /** The number a digit string denotes, most significant digit first. */
  function Value(s: string): nat
    requires AllDigits(s)
  {
    if s == [] then 0 else 10 * Value(s[..|s| - 1]) + (s[|s| - 1] as int - '0' as int)
  }

  /** The usual decimal numeral of n, as printf's %u prints it. */
  function Decimal(n: nat): (s: string)
    ensures s != [] && AllDigits(s)
  {
    if n < 10 then [n as char + '0'] else Decimal(n / 10) + [(n % 10) as char + '0']
  }

  lemma {:induction false} ValueOfDecimal(n: nat)
    ensures Value(Decimal(n)) == n
  {
    if n >= 10 {
      ValueOfDecimal(n / 10);
      assert Decimal(n)[..|Decimal(n)| - 1] == Decimal(n / 10);
    } else {
      assert Value([]) == 0;
    }
  }

  /** A number below 1000 has at most three digits. */
  lemma {:induction false} DecimalLength(n: nat)
    ensures |Decimal(n)| == if n < 10 then 1 else 1 + |Decimal(n / 10)|
    ensures n < 1000 ==> |Decimal(n)| <= 3
  {
    if 10 <= n {
      DecimalLength(n / 10);
      if n / 10 >= 10 {
        DecimalLength(n / 100);
        assert n / 10 / 10 == n / 100;
      }
    }
  }

  /** Distinct elements of a sequence. */
  predicate NoDup<T(==)>(s: seq<T>) {
    forall i, j :: 0 <= i < j < |s| ==> s[i] != s[j]
  }

  lemma {:induction false} NoDupCardinality<T>(s: seq<T>)
    requires NoDup(s)
    ensures |set x | x in s| == |s|
  {
    if s != [] {
      var init := s[..|s| - 1];
      NoDupCardinality(init);
      assert (set x | x in s) == (set x | x in init) + {s[|s| - 1]};
    } else {
      assert (set x | x in s) == {};
    }
  }

  /** src over the cells from `base` on. */
  method Memcpy(mem: array<char>, base: nat, src: string)
    requires base + |src| <= mem.Length
    modifies mem
    ensures forall k :: base <= k < base + |src| ==> mem[k] == src[k - base]
    ensures forall k :: 0 <= k < mem.Length && !(base <= k < base + |src|) ==> mem[k] == old(mem[k])
  {
    forall k | 0 <= k < |src| {
      mem[base + k] := src[k];
    }
  }
}
