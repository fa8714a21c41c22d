/** Go's `strconv.Atoi`. */
module Numbers {
  import opened Wrappers
  import opened Time

  predicate AllDigits(s: string) {
    forall i :: 0 <= i < |s| ==> '0' <= s[i] <= '9'
  }

  function Decimal(s: string): nat
    requires AllDigits(s)
  {
    if s == "" then 0
    else 10 * Decimal(s[..|s| - 1]) + (s[|s| - 1] as int - '0' as int)
  }

  /** strconv.Atoi: an optional sign, then decimal digits, in the range of a 64-bit int. */
  function Atoi(s: string): Option<Int64> {
    var signed := s != "" && (s[0] == '+' || s[0] == '-');
    var digits := if signed then s[1..] else s;
    if digits == "" || !AllDigits(digits) then None
    else
      var n: int := Decimal(digits);
      var v := if signed && s[0] == '-' then -n else n;
      if MIN_INT64 <= v <= MAX_INT64 then Some(v) else None
  }

  // ---- against the way numbers are written ---------------------------------------

  function Digit(n: nat): char
    requires n < 10
  {
    "0123456789"[n]
  }

  lemma DigitValue(n: nat)
    requires n < 10
    ensures '0' <= Digit(n) <= '9' && Digit(n) as int - '0' as int == n
  {
  }

  /** A number in decimal, without zeros in front. */
  function Digits(n: nat): string {
    if n < 10 then [Digit(n)] else Digits(n / 10) + [Digit(n % 10)]
  }

  ghost predicate Zeros(s: string) {
    forall i :: 0 <= i < |s| ==> s[i] == '0'
  }

  lemma DecimalLast(init: string, n: nat)
    requires AllDigits(init) && n < 10
    ensures AllDigits(init + [Digit(n)]) && Decimal(init + [Digit(n)]) == 10 * Decimal(init) + n
  {
    DigitValue(n);
    assert (init + [Digit(n)])[..|init|] == init;
  }

  lemma {:induction false} DecimalOfZeros(zeros: string)
    requires Zeros(zeros)
    ensures AllDigits(zeros) && Decimal(zeros) == 0
  {
    if zeros != "" {
      DecimalOfZeros(zeros[..|zeros| - 1]);
    }
  }

  lemma {:induction false} DecimalOfDigits(zeros: string, n: nat)
    requires Zeros(zeros)
    ensures AllDigits(zeros + Digits(n)) && Decimal(zeros + Digits(n)) == n && Digits(n) != ""
  {
    if n < 10 {
      DecimalOfZeros(zeros);
      DecimalLast(zeros, n);
    } else {
      DecimalOfDigits(zeros, n / 10);
      DecimalLast(zeros + Digits(n / 10), n % 10);
      assert zeros + Digits(n) == zeros + Digits(n / 10) + [Digit(n % 10)];
    }
  }

  /** One more digit on a text that writes `n` writes ten times as much and the digit. */
  lemma OneMoreDigit(zeros: string, n: nat, d: nat) returns (zeros': string)
    requires Zeros(zeros) && d < 10
    ensures Zeros(zeros') && zeros + Digits(n) + [Digit(d)] == zeros' + Digits(10 * n + d)
  {
    if n == 0 {
      zeros' := zeros + "0";
      assert Digits(0) == [Digit(0)] == "0" && Digits(d) == [Digit(d)];
    } else {
      zeros' := zeros;
      assert Digits(10 * n + d) == Digits(n) + [Digit(d)];
    }
  }

  lemma LastDigit(s: string) returns (init: string, d: nat)
    requires s != "" && AllDigits(s)
    ensures d < 10 && AllDigits(init) && |init| == |s| - 1 && s == init + [Digit(d)]
    ensures Decimal(s) == 10 * Decimal(init) + d
  {
    init, d := s[..|s| - 1], s[|s| - 1] as int - '0' as int;
    DigitValue(d);
  }

  lemma OneDigit(s: string, d: nat)
    requires d < 10 && s == [Digit(d)]
    ensures Zeros("") && s == "" + Digits(d)
  {
  }

  lemma AddDigit(s: string, init: string, zeros: string, n: nat, d: nat) returns (zeros': string)
    requires d < 10 && s == init + [Digit(d)] && init == zeros + Digits(n) && Zeros(zeros)
    ensures Zeros(zeros') && s == zeros' + Digits(10 * n + d)
  {
    zeros' := OneMoreDigit(zeros, n, d);
  }

  /** Every text of digits is a number with zeros in front. */
  lemma {:induction false} DigitsOfDecimal(s: string, n: nat) returns (zeros: string)
    requires s != "" && AllDigits(s) && n == Decimal(s)
    ensures Zeros(zeros) && s == zeros + Digits(n)
    decreases |s|
  {
    var init, d := LastDigit(s);
    var m := Decimal(init);
    if init == "" {
      OneDigit(s, d);
      zeros := "";
    } else {
      var earlier := DigitsOfDecimal(init, m);
      zeros := AddDigit(s, init, earlier, m, d);
    }
  }

  function Abs(v: int): nat {
    if v < 0 then -v else v
  }

  ghost predicate IsSign(sign: string, v: int) {
    (sign == "" && v >= 0) || (sign == "+" && v >= 0) || (sign == "-" && v <= 0)
  }

  /** The text writes the number: an optional sign, zeros, and its digits. */
  ghost predicate Writes(s: string, sign: string, zeros: string, v: int) {
    IsSign(sign, v) && Zeros(zeros) && s == sign + (zeros + Digits(Abs(v)))
  }

  lemma AtoiSigned(sign: string, digits: string, v: int)
    requires IsSign(sign, v) && digits != "" && AllDigits(digits) && Decimal(digits) == Abs(v)
    requires MIN_INT64 <= v <= MAX_INT64
    ensures Atoi(sign + digits) == Some(v)
  {
    var s := sign + digits;
    if sign == "" {
      assert s == digits;
    } else {
      assert s[0] == sign[0] && s[1..] == digits;
    }
  }

  lemma AtoiReads(s: string, sign: string, zeros: string, v: int)
    requires Writes(s, sign, zeros, v) && MIN_INT64 <= v <= MAX_INT64
    ensures Atoi(s) == Some(v)
  {
    DecimalOfDigits(zeros, Abs(v));
    AtoiSigned(sign, zeros + Digits(Abs(v)), v);
  }

  /** What Atoi has read. */
  lemma AtoiParts(s: string, v: int) returns (sign: string, digits: string)
    requires Atoi(s) == Some(v)
    ensures IsSign(sign, v) && digits != "" && AllDigits(digits) && Decimal(digits) == Abs(v)
    ensures s == sign + digits
  {
    if s[0] == '+' || s[0] == '-' {
      sign, digits := [s[0]], s[1..];
    } else {
      sign, digits := "", s;
    }
  }

  /** Atoi reads exactly the texts that write a 64-bit number. */
  lemma AtoiIff(s: string, v: int)
    ensures Atoi(s) == Some(v) <==> MIN_INT64 <= v <= MAX_INT64 && exists sign, zeros :: Writes(s, sign, zeros, v)
  {
    if MIN_INT64 <= v <= MAX_INT64 {
      if sign, zeros :| Writes(s, sign, zeros, v) {
        AtoiReads(s, sign, zeros, v);
      }
    }
    if Atoi(s) == Some(v) {
      var sign, digits := AtoiParts(s, v);
      var zeros := DigitsOfDecimal(digits, Abs(v));
      assert Writes(s, sign, zeros, v);
    }
  }
}
