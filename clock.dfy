/** The MM:SS rendering of the remaining time (`format_time`), and a parser
    that reads it back, used as its partner in the round-trip lemma. */
module Clock {
  import opened Common

  predicate IsDigit(c: char) { '0' <= c <= '9' }

  predicate AllDigits(s: string) { forall k :: 0 <= k < |s| ==> IsDigit(s[k]) }

  function DigitChar(d: nat): (c: char)
    requires d < 10
    ensures IsDigit(c) && (c as int) - ('0' as int) == d
  {
    (('0' as int) + d) as char
  }

  function DigitValue(c: char): nat
    requires IsDigit(c)
  {
    (c as int) - ('0' as int)
  }

  /** Decimal digits of `n`, most significant first, with no leading zero
      (`str(n)` for a non-negative integer). */
  function Digits(n: nat): (s: string)
    ensures 1 <= |s| && AllDigits(s)
    ensures n < 10 <==> |s| == 1
    ensures n < 100 ==> |s| <= 2
    ensures n >= 1 ==> s[0] != '0'
    decreases n
  {
    if n < 10 then [DigitChar(n)] else Digits(n / 10) + [DigitChar(n % 10)]
  }

  /** Python's `f"{n:02d}"`: at least two characters, zero-filled after the
      sign. A negative `n` already has two characters once its sign is
      written, so no zero is added. */
  function Pad2(n: int): (s: string)
    ensures 2 <= |s|
    ensures n >= 0 ==> AllDigits(s)
    ensures 0 <= n < 100 ==> |s| == 2
    ensures n >= 10 ==> s[0] != '0'
    ensures n < 0 ==> s[0] == '-'
    ensures n < 0 ==> AllDigits(s[1..]) && s[1] != '0'
  {
    if n < 0 then "-" + Digits(-n)
    else if n < 10 then "0" + Digits(n)
    else Digits(n)
  }

  /** `format_time`: `divmod(current_time, 60)`, both parts padded to two
      digits. The divisor is positive, so Dafny's `/` and `%` agree with
      Python's floor division and modulo, also for a negative time. */
  function FormatTime(t: int): (s: string)
    ensures 5 <= |s| && s[|s| - 3] == ':'
    ensures AllDigits(s[|s| - 2..])
    ensures t >= 0 ==> AllDigits(s[..|s| - 3])
    ensures 0 <= t < 6000 <==> |s| == 5 && s[0] != '-'
    ensures t >= 600 ==> s[0] != '0'
  {
    var s := Pad2(t / 60) + ":" + Pad2(t % 60);
    assert s[|s| - 2..] == Pad2(t % 60);
    assert s[..|s| - 3] == Pad2(t / 60);
    s
  }

  /** Value of a string of decimal digits, read left to right. */
  function ParseDigits(s: string): nat
    requires AllDigits(s)
  {
    if s == [] then 0 else ParseDigits(s[..|s| - 1]) * 10 + DigitValue(s[|s| - 1])
  }

  /** Reads a rendered clock back into seconds: minutes, a colon, and exactly
      two digits of seconds below 60. */
  function ParseClock(s: string): (r: Option<int>)
    ensures r.Some? ==> r.value >= 0
  {
    if |s| >= 4 && s[|s| - 3] == ':' && AllDigits(s[..|s| - 3]) && AllDigits(s[|s| - 2..])
       && ParseDigits(s[|s| - 2..]) < 60
    then Some(ParseDigits(s[..|s| - 3]) * 60 + ParseDigits(s[|s| - 2..]))
    else None
  }

  lemma {:induction false} ParseDigitsOfDigits(n: nat)
    ensures ParseDigits(Digits(n)) == n
    decreases n
  {
    if n >= 10 {
      var d := Digits(n / 10);
      assert Digits(n) == d + [DigitChar(n % 10)];
      assert (d + [DigitChar(n % 10)])[..|d|] == d;
      ParseDigitsOfDigits(n / 10);
    }
  }

  lemma ParseDigitsOfPad2(n: nat)
    ensures ParseDigits(Pad2(n)) == n
  {
    ParseDigitsOfDigits(n);
    if n < 10 {
      var p := Pad2(n);
      assert p == ['0', DigitChar(n)];
      assert p[..1] == ['0'];
      assert ['0'][..0] == [];
    }
  }

  /** A negative number renders as a minus sign followed by the digits of
      its magnitude. */
  lemma ParseDigitsOfNegativePad2(n: int)
    requires n < 0
    ensures ParseDigits(Pad2(n)[1..]) == -n
  {
    var d := Digits(-n);
    assert Pad2(n) == "-" + d;
    assert ("-" + d)[1..] == d;
    ParseDigitsOfDigits(-n);
  }

  /** A negative time renders as a minus sign, the magnitude of the floored
      minutes, a colon and the two-digit non-negative remainder. */
  lemma FormatTimeNegative(t: int)
    requires t < 0
    ensures var s := FormatTime(t);
            && s[0] == '-'
            && AllDigits(s[1..|s| - 3])
            && ParseDigits(s[1..|s| - 3]) == -(t / 60)
            && ParseDigits(s[|s| - 2..]) == t % 60
  {
    var m, sec := Pad2(t / 60), Pad2(t % 60);
    var s := m + ":" + sec;
    assert FormatTime(t) == s;
    assert s[1..|s| - 3] == m[1..] by {
      assert |s| - 3 == |m|;
    }
    assert s[|s| - 2..] == sec by {
      assert |sec| == 2;
    }
    ParseDigitsOfNegativePad2(t / 60);
    ParseDigitsOfPad2(t % 60);
  }

  /** Round trip: the rendered clock of a non-negative time reads back as
      that time, so no two non-negative times render alike. */
  lemma {:induction false} ParseFormatTime(t: nat)
    ensures ParseClock(FormatTime(t)) == Some(t)
  {
    var m, sec := t / 60, t % 60;
    var s := FormatTime(t);
    assert s == Pad2(m) + ":" + Pad2(sec);
    assert s[..|s| - 3] == Pad2(m);
    assert s[|s| - 2..] == Pad2(sec);
    ParseDigitsOfPad2(m);
    ParseDigitsOfPad2(sec);
  }

  lemma FormatTimeInjective(a: nat, b: nat)
    requires FormatTime(a) == FormatTime(b)
    ensures a == b
  {
    ParseFormatTime(a);
    ParseFormatTime(b);
  }

  /** 0, 65 and 3661 seconds, and a negative time, which floor division
      renders with a sign (an unvalidated negative duration can produce one). */
  lemma FormatTimeExamples()
    ensures FormatTime(0) == "00:00"
    ensures FormatTime(65) == "01:05"
    ensures FormatTime(3661) == "61:01"
    ensures FormatTime(-5) == "-1:55"
  {
    assert Pad2(0) == "00" && Pad2(1) == "01" && Pad2(5) == "05";
    assert Digits(61) == Digits(6) + ['1'];
    assert Pad2(61) == "61";
    assert Pad2(-1) == "-1" && Pad2(55) == "55" by {
      assert Digits(55) == Digits(5) + ['5'];
    }
    assert 3661 / 60 == 61 && 3661 % 60 == 1;
    assert -5 / 60 == -1 && -5 % 60 == 55;
  }
}
