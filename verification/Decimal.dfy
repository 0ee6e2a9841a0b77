/** Decimal numerals as the standard library reads and writes them. */
module Decimal {
  import opened Words

  predicate IsDigit(c: char) {
    '0' <= c <= '9'
  }

  predicate AllDigits(s: string) {
    forall i | 0 <= i < |s| :: IsDigit(s[i])
  }

  function DigitValue(c: char): nat
    requires IsDigit(c)
  {
    c as int - '0' as int
  }

  function Digit(n: nat): (c: char)
    requires n < 10
    ensures IsDigit(c) && DigitValue(c) == n
  {
    (n + '0' as int) as char
  }

  function ValueOf(s: string): nat
    requires AllDigits(s)
  {
    if s == "" then 0 else 10 * ValueOf(s[..|s| - 1]) + DigitValue(s[|s| - 1])
  }

  /** The canonical numeral: no sign, no leading zero. */
  function Numeral(n: nat): (s: string)
    ensures s != "" && AllDigits(s)
  {
    if n < 10 then [Digit(n)] else Numeral(n / 10) + [Digit(n % 10)]
  }

  lemma {:induction false} ValueOfNumeral(n: nat)
    ensures ValueOf(Numeral(n)) == n
  {
    if n >= 10 {
      ValueOfNumeral(n / 10);
      assert Numeral(n)[..|Numeral(n)| - 1] == Numeral(n / 10);
    } else {
      assert Numeral(n)[..0] == "";
    }
  }

  /** Unsigned, 32 bits: digits only, and no overflow. */
  function ParseUint32(s: string): Option<uint32> {
    if s != "" && AllDigits(s) && ValueOf(s) < 0x1_0000_0000 then Some(ValueOf(s)) else None
  }

  const MAX_INT: int := 0x7fff_ffff_ffff_ffff
  const MIN_INT: int := -0x8000_0000_0000_0000

  /** A conversion always yields a number: 0 for a malformed numeral, and the
      nearest 64-bit integer for one out of range. */
  datatype Converted = Converted(value: int, ok: bool)

  function Atoi(s: string): Converted {
    var negative := s != "" && s[0] == '-';
    var digits := if s != "" && (s[0] == '-' || s[0] == '+') then s[1..] else s;
    if digits == "" || !AllDigits(digits) then Converted(0, false)
    else
      var n: int := if negative then 0 - ValueOf(digits) else ValueOf(digits);
      if n > MAX_INT then Converted(MAX_INT, false)
      else if n < MIN_INT then Converted(MIN_INT, false)
      else Converted(n, true)
  }

  function Itoa(n: int): string {
    if n < 0 then "-" + Numeral(-n) else Numeral(n)
  }

  /** Converting the canonical form of a 64-bit integer gives it back. */
  lemma AtoiOfItoa(n: int)
    requires -0x8000_0000_0000_0000 <= n <= 0x7fff_ffff_ffff_ffff
    ensures Atoi(Itoa(n)) == Converted(n, true)
  {
    if n < 0 {
      ValueOfNumeral(-n);
      assert Itoa(n)[1..] == Numeral(-n);
    } else {
      ValueOfNumeral(n);
      assert IsDigit(Itoa(n)[0]);
    }
  }

  /** Numerals are decimal: one more digit multiplies by ten and adds it. */
  lemma NumeralsAreDecimal(n: nat, d: nat)
    requires d < 10
    ensures Itoa(d) == ["0123456789"[d]]
    ensures n > 0 ==> Itoa(10 * n + d) == Itoa(n) + ["0123456789"[d]] && Itoa(0 - n) == "-" + Itoa(n)
  {
    assert (10 * n + d) / 10 == n && (10 * n + d) % 10 == d;
    assert "0123456789"[d] as int == '0' as int + d;
  }

  /** And so are their values, leading zeros and all. */
  lemma ValuesAreDecimal(ds: string, d: nat)
    requires d < 10 && AllDigits(ds)
    ensures var more := ds + ["0123456789"[d]]; AllDigits(more) && ValueOf(more) == 10 * ValueOf(ds) + d
    ensures ValueOf("") == 0
  {
    var c := "0123456789"[d];
    assert c as int == '0' as int + d;
    assert (ds + [c])[..|ds|] == ds;
  }

  /** A sign and digits convert to the number they stand for, or to the nearest
      64-bit integer with an error. */
  lemma AtoiOfDigits(ds: string)
    requires ds != "" && AllDigits(ds)
    ensures Atoi("+" + ds) == Atoi(ds)
    ensures Atoi(ds) == if ValueOf(ds) <= 0x7fff_ffff_ffff_ffff then Converted(ValueOf(ds), true)
                        else Converted(0x7fff_ffff_ffff_ffff, false)
    ensures Atoi("-" + ds) == if ValueOf(ds) <= 0x8000_0000_0000_0000 then Converted(0 - ValueOf(ds), true)
                              else Converted(-0x8000_0000_0000_0000, false)
  {
    assert IsDigit(ds[0]);
    assert ("+" + ds)[1..] == ds && ("-" + ds)[1..] == ds;
  }

  /** Anything else converts to 0 with an error. */
  lemma AtoiOfOthers(s: string)
    requires forall ds: string | ds != "" && AllDigits(ds) :: s != ds && s != "+" + ds && s != "-" + ds
    ensures Atoi(s) == Converted(0, false)
  {
    if s != "" && (s[0] == '+' || s[0] == '-') {
      var ds := s[1..];
      assert s == "+" + ds || s == "-" + ds;
    }
  }
}
