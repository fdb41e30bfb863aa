/** Numerals: the `%d` and `%x` verbs of Go's fmt, and reading them back. */
module Numbers {
  import opened Wrappers

  function DigitChar(d: nat): char
    requires d < 16
  {
    if d < 10 then ('0' as int + d) as char else ('a' as int + d - 10) as char
  }

  function DigitValue(c: char): Option<nat>
  {
    if '0' <= c <= '9' then Some(c as int - '0' as int)
    else if 'a' <= c <= 'f' then Some(c as int - 'a' as int + 10)
    else None
  }

  predicate IsDigit(c: char, base: nat)
  {
    DigitValue(c).Some? && DigitValue(c).value < base
  }

  predicate AllDigits(s: string, base: nat)
  {
    forall i :: 0 <= i < |s| ==> IsDigit(s[i], base)
  }

  /** The two bases in use; the products and quotients stay linear. */
  predicate IsBase(base: nat)
  {
    base == 10 || base == 16
  }

  function Times(n: nat, base: nat): nat
    requires IsBase(base)
  {
    if base == 10 then 10 * n else 16 * n
  }

  function Quotient(n: nat, base: nat): (q: nat)
    requires IsBase(base)
    ensures n >= base ==> 0 < q < n
  {
    if base == 10 then n / 10 else n / 16
  }

  function Remainder(n: nat, base: nat): (r: nat)
    requires IsBase(base)
    ensures r < base && n == Times(Quotient(n, base), base) + r
  {
    if base == 10 then n % 10 else n % 16
  }

  /** The shortest numeral of `n`. */
  function Print(n: nat, base: nat): (s: string)
    requires IsBase(base)
    ensures s != "" && AllDigits(s, base)
    ensures n != 0 ==> s[0] != '0'
  {
    if n < base then [DigitChar(n)]
    else Print(Quotient(n, base), base) + [DigitChar(Remainder(n, base))]
  }

  function Value(s: string, base: nat): nat
    requires IsBase(base) && AllDigits(s, base)
  {
    if s == "" then 0
    else Times(Value(s[..|s| - 1], base), base) + DigitValue(s[|s| - 1]).value
  }

  /** Reads a non-empty numeral; None on any other text. */
  function Parse(s: string, base: nat): Option<nat>
    requires IsBase(base)
  {
    if s != "" && AllDigits(s, base) then Some(Value(s, base)) else None
  }

  lemma {:induction false} ParsePrint(n: nat, base: nat)
    requires IsBase(base)
    ensures Parse(Print(n, base), base) == Some(n)
  {
    if n < base {
      var s := [DigitChar(n)];
      assert s[..|s| - 1] == "";
      assert Value(s[..|s| - 1], base) == 0;
    } else {
      ParsePrint(Quotient(n, base), base);
      var s := Print(n, base);
      assert s[..|s| - 1] == Print(Quotient(n, base), base);
    }
  }

  /** Every numeral is the printed form of its value, but for zeros in front. */
  lemma {:induction false} PrintParse(s: string, base: nat)
    requires IsBase(base) && s != "" && AllDigits(s, base) && (|s| == 1 || s[0] != '0')
    ensures Print(Value(s, base), base) == s
    ensures |s| > 1 ==> Value(s, base) >= base
  {
    var n := |s| - 1;
    var last := DigitValue(s[n]).value;
    assert DigitChar(last) == s[n];
    if n == 0 {
      assert s[..n] == "" && Value(s[..n], base) == 0;
    } else {
      PrintParse(s[..n], base);
      if n == 1 {
        assert s[..1][..0] == "" && Value(s[..1], base) == DigitValue(s[0]).value;
      }
      assert Value(s[..n], base) > 0;
      LastDigit(Value(s[..n], base), last, base);
      assert s == s[..n] + [s[n]];
    }
  }

  lemma LastDigit(n: nat, d: nat, base: nat)
    requires IsBase(base) && d < base
    ensures Quotient(Times(n, base) + d, base) == n && Remainder(Times(n, base) + d, base) == d
  {
  }

  /** `strconv.Atoi` on a 64-bit platform: an optional sign, digits, and a range check. */
  function Atoi(s: string): Option<int>
  {
    var signed := s != "" && (s[0] == '-' || s[0] == '+');
    match Parse(if signed then s[1..] else s, 10)
    case None => None
    case Some(n) =>
      var v: int := if signed && s[0] == '-' then 0 - n else n;
      if -0x8000_0000_0000_0000 <= v < 0x8000_0000_0000_0000 then Some(v) else None
  }

  /** The `%d` verb. */
  function PrintInt(n: int): string
  {
    if n < 0 then ['-'] + Print(-n, 10) else Print(n, 10)
  }

  lemma AtoiPrintInt(n: int)
    requires -0x8000_0000_0000_0000 <= n < 0x8000_0000_0000_0000
    ensures Atoi(PrintInt(n)) == Some(n)
  {
    if n < 0 {
      ParsePrint(-n, 10);
      assert PrintInt(n)[1..] == Print(-n, 10);
    } else {
      ParsePrint(n, 10);
      assert IsDigit(Print(n, 10)[0], 10);
    }
  }
}
