/** Decimal integers: Rust's `i64::to_string` and `str::parse::<i64>`. */
module Decimal {
  import opened Wrappers

  const I64_MIN := -0x8000_0000_0000_0000
  const I64_MAX := 0x7FFF_FFFF_FFFF_FFFF

  predicate InI64(n: int) {
    I64_MIN <= n <= I64_MAX
  }

  predicate IsDigit(c: char) {
    '0' <= c <= '9'
  }

  predicate AllDigits(s: string) {
    forall k :: 0 <= k < |s| ==> IsDigit(s[k])
  }

  function Digit(d: nat): char
    requires d < 10
  {
    (d + '0' as int) as char
  }

  function DecNat(n: nat): (s: string)
    ensures s != "" && AllDigits(s)
  {
    if n < 10 then [Digit(n)] else DecNat(n / 10) + [Digit(n % 10)]
  }

  /** `n.to_string()`. */
  function Dec(n: int): string {
    if n < 0 then "-" + DecNat(-n) else DecNat(n)
  }

  function NatOf(s: string): nat
    requires AllDigits(s)
  {
    if s == "" then 0
    else NatOf(s[..|s| - 1]) * 10 + (s[|s| - 1] as int - '0' as int)
  }

  /** `w.parse::<i64>().ok()`: an optional sign, at least one digit, and no overflow. */
  function ParseI64(w: string): (r: Option<int>)
    ensures r.Some? ==> InI64(r.value)
  {
    var neg := w != "" && w[0] == '-';
    var digits := if w != "" && (w[0] == '-' || w[0] == '+') then w[1..] else w;
    if digits == "" || !AllDigits(digits) then None
    else
      var v: int := NatOf(digits);
      var n := if neg then -v else v;
      if InI64(n) then Some(n) else None
  }

  lemma {:induction false} NatOfDecNat(n: nat)
    ensures NatOf(DecNat(n)) == n
  {
    if n >= 10 {
      var s := DecNat(n);
      assert s[..|s| - 1] == DecNat(n / 10);
      NatOfDecNat(n / 10);
    }
  }

  /** Parsing a printed integer gives the integer back. */
  lemma ParseDec(n: int)
    requires InI64(n)
    ensures ParseI64(Dec(n)) == Some(n)
  {
    hide NatOf, DecNat;
    var m: nat := if n < 0 then -n else n;
    var s := DecNat(m);
    NatOfDecNat(m);
    assert IsDigit(s[0]);
    if n < 0 {
      assert Dec(n)[1..] == s;
    }
  }

  function Zeros(z: nat): string {
    seq(z, _ => '0')
  }

  /** A numeral: an optional sign, any leading zeros, and the decimal digits of the magnitude. */
  predicate IsNumeral(w: string, sign: string, z: nat, n: int) {
    && w == sign + (Zeros(z) + DecNat(if n < 0 then -n else n))
    && (n < 0 ==> sign == "-") && (n > 0 ==> sign == "" || sign == "+") && (n == 0 ==> sign in {"", "+", "-"})
  }

  lemma {:induction false} NatOfZeros(z: nat, s: string)
    requires AllDigits(s)
    ensures AllDigits(Zeros(z) + s) && NatOf(Zeros(z) + s) == NatOf(s)
    decreases |s|, z
  {
    var t := Zeros(z) + s;
    if s != "" {
      assert t[..|t| - 1] == Zeros(z) + s[..|s| - 1];
      NatOfZeros(z, s[..|s| - 1]);
    } else if z > 0 {
      assert t[..|t| - 1] == Zeros(z - 1) + s;
      NatOfZeros(z - 1, s);
    }
  }

  /** A digit sequence is the digits of its value after some zeros. */
  lemma {:induction false} DigitsAre(s: string) returns (z: nat)
    requires s != "" && AllDigits(s)
    ensures s == Zeros(z) + DecNat(NatOf(s))
  {
    var front, last := s[..|s| - 1], s[|s| - 1];
    assert s == front + [last];
    if front == "" {
      z := 0;
      assert NatOf(front) == 0;
    } else {
      z := DigitsAre(front);
      var v := NatOf(front);
      if v > 0 {
        assert NatOf(s) / 10 == v && NatOf(s) % 10 == last as int - '0' as int;
      } else {
        assert DecNat(0) == "0";
        assert Zeros(z) + "0" == Zeros(z + 1);
        assert NatOf(s) == last as int - '0' as int;
        z := z + 1;
      }
    }
  }

  /** The integers a text can be read as: exactly the numerals of 64-bit integers, whatever their sign
      and leading zeros. */
  lemma ParseExactlyNumerals(w: string, n: int)
    ensures ParseI64(w) == Some(n) <==> InI64(n) && exists sign, z :: IsNumeral(w, sign, z, n)
  {
    hide NatOf, DecNat, Zeros;
    if InI64(n) && exists sign, z :: IsNumeral(w, sign, z, n) {
      var sign, z :| IsNumeral(w, sign, z, n);
      NumeralRead(w, sign, z, n);
    }
    if ParseI64(w) == Some(n) {
      var sign, z := NumeralOf(w, n);
    }
  }

  lemma NumeralRead(w: string, sign: string, z: nat, n: int)
    requires InI64(n) && IsNumeral(w, sign, z, n)
    ensures ParseI64(w) == Some(n)
  {
    hide NatOf, DecNat, Zeros;
    var m: nat := if n < 0 then -n else n;
    var digits := Zeros(z) + DecNat(m);
    NatOfZeros(z, DecNat(m));
    NatOfDecNat(m);
    assert digits != "" && IsDigit(digits[0]);
    assert sign == "" ==> w == digits;
    assert sign != "" ==> w[0] == sign[0] && w[1..] == digits;
  }

  lemma NumeralOf(w: string, n: int) returns (sign: string, z: nat)
    requires ParseI64(w) == Some(n)
    ensures IsNumeral(w, sign, z, n)
  {
    hide NatOf, DecNat, Zeros;
    var signed := w[0] == '-' || w[0] == '+';
    var digits := if signed then w[1..] else w;
    sign := if signed then [w[0]] else "";
    z := DigitsAre(digits);
    assert w == sign + digits;
  }
}
