/** Decimal numerals as Go's `strconv.Itoa`, `%d` and `strconv.Atoi` treat them. */
module Decimal {
  import opened Text

  // The range of Go's `int` on a 64-bit platform.
  const MIN_INT: int := -0x8000_0000_0000_0000
  const MAX_INT: int := 0x7fff_ffff_ffff_ffff

  predicate IsInt(n: int) { MIN_INT <= n <= MAX_INT }

  predicate IsDigit(c: char) { '0' <= c <= '9' }

  function DigitChar(d: nat): (c: char)
    requires d < 10
    ensures IsDigit(c)
  {
    '0' + d as char
  }

  function DigitValue(c: char): (d: nat)
    requires IsDigit(c)
    ensures d < 10
  {
    c as int - '0' as int
  }

  predicate AllDigits(s: string) {
    |s| >= 1 && forall i | 0 <= i < |s| :: IsDigit(s[i])
  }

  function Digits(n: nat): (s: string)
    ensures AllDigits(s)
  {
    if n < 10 then [DigitChar(n)] else Digits(n / 10) + [DigitChar(n % 10)]
  }

  /** `strconv.Itoa` and the verb `%d`. */
  function Itoa(n: int): (s: string)
    ensures |s| >= 1 && IsDigit(s[|s| - 1])
    ensures forall i | 0 <= i < |s| :: IsDigit(s[i]) || s[i] == '-'
  {
    if n < 0 then "-" + Digits(-n) else Digits(n)
  }

  function DigitsValue(s: string): nat
    requires AllDigits(s)
  {
    var last := DigitValue(s[|s| - 1]);
    if |s| == 1 then last else 10 * DigitsValue(s[..|s| - 1]) + last
  }

  /** `strconv.Atoi`: an optional sign and at least one digit, within the range of `int`. */
  function Atoi(s: string): (r: Option<int>)
    ensures r.Some? ==> IsInt(r.value)
  {
    var signed := s != "" && (s[0] == '+' || s[0] == '-');
    var digits := if signed then s[1..] else s;
    if !AllDigits(digits) then None
    else
      var n: int := if signed && s[0] == '-' then -(DigitsValue(digits) as int) else DigitsValue(digits);
      if IsInt(n) then Some(n) else None
  }

  lemma {:induction false} DigitsValueDigits(n: nat)
    ensures DigitsValue(Digits(n)) == n
  {
    if n < 10 {
    } else {
      DigitsValueDigits(n / 10);
      var s := Digits(n);
      assert s[..|s| - 1] == Digits(n / 10);
    }
  }

  /** A printed number is read back as itself. */
  lemma AtoiItoa(n: int)
    requires IsInt(n)
    ensures Atoi(Itoa(n)) == Some(n)
  {
    var s := Itoa(n);
    if n < 0 {
      DigitsValueDigits(-n);
      assert s[0] == '-' && s[1..] == Digits(-n);
    } else {
      DigitsValueDigits(n);
      assert IsDigit(s[0]);
    }
  }

  lemma DigitsSnoc(n: nat, d: nat)
    requires n > 0 && d < 10
    ensures Digits(10 * n + d) == Digits(n) + [DigitChar(d)]
  {
  }

  /** The digits are the decimal ones, the most significant first. */
  lemma DigitsExample()
    ensures Itoa(9012) == "9012" && Itoa(-34567) == "-34567" && Itoa(8) == "8"
  {
    DigitsSnoc(9, 0);
    DigitsSnoc(90, 1);
    DigitsSnoc(901, 2);
    DigitsSnoc(3, 4);
    DigitsSnoc(34, 5);
    DigitsSnoc(345, 6);
    DigitsSnoc(3456, 7);
  }

  // ----- Which texts are numbers -----

  predicate AreZeros(s: string) {
    forall i | 0 <= i < |s| :: s[i] == '0'
  }

  lemma {:induction false} ZeroInFront(digits: string)
    requires AllDigits(digits)
    ensures AllDigits(['0'] + digits) && DigitsValue(['0'] + digits) == DigitsValue(digits)
  {
    var front := digits[..|digits| - 1];
    assert (['0'] + digits)[..|digits|] == ['0'] + front;
    if |digits| > 1 {
      ZeroInFront(front);
    } else {
      assert DigitsValue(['0']) == 0;
    }
  }

  lemma {:induction false} ZerosInFront(zeros: string, digits: string)
    requires AllDigits(digits) && AreZeros(zeros)
    ensures AllDigits(zeros + digits) && DigitsValue(zeros + digits) == DigitsValue(digits)
  {
    if zeros == "" {
      assert zeros + digits == digits;
    } else {
      ZerosInFront(zeros[1..], digits);
      ZeroInFront(zeros[1..] + digits);
      assert zeros + digits == ['0'] + (zeros[1..] + digits);
    }
  }

  /** One more digit behind a numeral with zeros in front. */
  lemma OneMoreDigit(zeros: string, n: nat, d: nat) returns (zeros': string)
    requires AreZeros(zeros) && d < 10
    ensures (zeros + Digits(n)) + [DigitChar(d)] == zeros' + Digits(10 * n + d) && AreZeros(zeros')
  {
    if n == 0 {
      zeros' := zeros + ['0'];
      assert Digits(0) == ['0'] && Digits(d) == [DigitChar(d)];
    } else {
      zeros' := zeros;
      DigitsSnoc(n, d);
      assert (zeros + Digits(n)) + [DigitChar(d)] == zeros + (Digits(n) + [DigitChar(d)]);
    }
  }

  /** Digits are the numeral of their value, behind some zeros. */
  lemma {:induction false} ZerosAndDigits(s: string) returns (zeros: string)
    requires AllDigits(s)
    ensures s == zeros + Digits(DigitsValue(s)) && AreZeros(zeros)
  {
    var front, d := s[..|s| - 1], DigitValue(s[|s| - 1]);
    assert s == front + [DigitChar(d)];
    if |s| > 1 {
      zeros := ZerosAndDigits(front);
      zeros := OneMoreDigit(zeros, DigitsValue(front), d);
    } else {
      zeros := "";
      assert Digits(d) == [DigitChar(d)] && s == "" + [DigitChar(d)];
    }
  }

  /** A number with a sign and zeros in front of its digits. */
  function Spelling(sign: string, zeros: string, n: int): string {
    sign + zeros + Digits(if n < 0 then -n else n)
  }

  lemma SpellingAround(sign: string, zeros: string, n: int)
    ensures Spelling(sign, zeros, n) == sign + (zeros + Digits(if n < 0 then -n else n))
  {
  }

  /** What may stand in front of the digits of `n`. */
  predicate FitsSign(sign: string, n: int) {
    (sign == "" || sign == "+" || sign == "-") && (n < 0 ==> sign == "-") && (n > 0 ==> sign != "-")
  }

  lemma SignedIsRead(sign: string, digits: string, n: int)
    requires FitsSign(sign, n) && IsInt(n) && AllDigits(digits)
    requires DigitsValue(digits) == if n < 0 then -n else n
    ensures Atoi(sign + digits) == Some(n)
  {
    var s := sign + digits;
    if sign == "" {
      assert s == digits && IsDigit(s[0]);
    } else {
      assert s[0] == sign[0] && s[1..] == digits;
    }
  }

  lemma SpelledIsRead(n: int, sign: string, zeros: string)
    requires IsInt(n) && AreZeros(zeros) && FitsSign(sign, n)
    ensures Atoi(Spelling(sign, zeros, n)) == Some(n)
  {
    var m: nat := if n < 0 then -n else n;
    ZerosInFront(zeros, Digits(m));
    DigitsValueDigits(m);
    SpellingAround(sign, zeros, n);
    SignedIsRead(sign, zeros + Digits(m), n);
  }

  /** The sign and the digits of a text that is read as a number. */
  lemma SignAndDigits(s: string, n: int) returns (sign: string, digits: string)
    requires Atoi(s) == Some(n)
    ensures s == sign + digits && FitsSign(sign, n) && AllDigits(digits)
    ensures DigitsValue(digits) == if n < 0 then -n else n
  {
    var signed := s[0] == '+' || s[0] == '-';
    sign := if signed then [s[0]] else "";
    digits := if signed then s[1..] else s;
  }

  lemma ReadIsSpelled(s: string, n: int) returns (sign: string, zeros: string)
    requires Atoi(s) == Some(n)
    ensures s == Spelling(sign, zeros, n) && AreZeros(zeros) && FitsSign(sign, n)
  {
    var digits;
    sign, digits := SignAndDigits(s, n);
    zeros := ZerosAndDigits(digits);
    SpellingAround(sign, zeros, n);
  }

  /** A text is read as a number exactly if it is an optional sign, any zeros, and the digits of a number
      in the range of a 64-bit integer: a minus for a negative one, no minus for a positive one. */
  lemma {:induction false} AtoiAccepts(s: string, n: int)
    ensures Atoi(s) == Some(n) <==>
      && -0x8000_0000_0000_0000 <= n <= 0x7fff_ffff_ffff_ffff
      && exists sign: string, zeros: string ::
           && s == Spelling(sign, zeros, n)
           && (forall i | 0 <= i < |zeros| :: zeros[i] == '0')
           && (sign == "" || sign == "+" || sign == "-")
           && (n < 0 ==> sign == "-") && (n > 0 ==> sign != "-")
  {
    if Atoi(s) == Some(n) {
      var sign, zeros := ReadIsSpelled(s, n);
    }
    if IsInt(n) {
      forall sign: string, zeros: string | s == Spelling(sign, zeros, n) && AreZeros(zeros) && FitsSign(sign, n)
        ensures Atoi(s) == Some(n)
      {
        SpelledIsRead(n, sign, zeros);
      }
    }
  }

  /** A text with a character that is neither a digit nor a leading sign is no number, nor is one
      without digits. */
  lemma NoNumber(s: string)
    requires s == "" || s == "+" || s == "-"
      || exists i | 0 <= i < |s| :: !('0' <= s[i] <= '9') && !(i == 0 && (s[0] == '+' || s[0] == '-'))
    ensures Atoi(s) == None
  {
    if |s| > 1 {
      var i :| 0 <= i < |s| && !('0' <= s[i] <= '9') && !(i == 0 && (s[0] == '+' || s[0] == '-'));
      if s[0] == '+' || s[0] == '-' {
        assert s[1..][i - 1] == s[i];
      }
    }
  }
}
