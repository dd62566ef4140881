/** Decimal integer text, standing in for Python's `int(str)` on the Line and
    Column fields: an optional leading `-` followed by one or more ASCII
    digits. `Show` renders an integer the same way and is the partner that
    `ParseInt` inverts. */
module Numbers {
  import opened Wrappers

  predicate IsDigit(c: char) {
    '0' <= c <= '9'
  }

  predicate AllDigits(s: string) {
    forall i :: 0 <= i < |s| ==> IsDigit(s[i])
  }

  function DigitValue(c: char): (d: nat)
    requires IsDigit(c)
    ensures d < 10
  {
    c as int - '0' as int
  }

  function DigitChar(d: nat): (c: char)
    requires d < 10
    ensures IsDigit(c) && DigitValue(c) == d
  {
    ('0' as int + d) as char
  }

  /** Value of a string of digits, most significant first. */
  function DigitsValue(s: string): nat
    requires AllDigits(s)
    decreases |s|
  {
    if |s| == 0 then 0
    else DigitsValue(s[..|s| - 1]) * 10 + DigitValue(s[|s| - 1])
  }

  /** Python 3.11 and later refuse to convert text of more than this many
      digits (`sys.int_info.default_max_str_digits`). */
  const MaxStrDigits: nat := 4300

  predicate Negative(text: string) {
    |text| > 0 && text[0] == '-'
  }

  /** The text after an optional leading `-`. */
  function Digits(text: string): string {
    if Negative(text) then text[1..] else text
  }

  /** Python `int(text)` restricted to plain decimal text; `None` where
      Python would raise `ValueError`. Accepted text is an optional `-`
      followed by one to 4300 ASCII digits, nothing else. */
  function ParseInt(text: string): (r: Option<int>)
    ensures r.Some? ==>
      && |text| > 0 && text != "-"
      && (text[0] == '-' || IsDigit(text[0]))
      && (forall i :: 1 <= i < |text| ==> IsDigit(text[i]))
    ensures r.Some? ==> |text| <= MaxStrDigits + (if text[0] == '-' then 1 else 0)
    ensures |text| > 0 && text != "-" && (text[0] == '-' || IsDigit(text[0]))
      && (forall i :: 1 <= i < |text| ==> IsDigit(text[i]))
      && |text| <= MaxStrDigits + (if text[0] == '-' then 1 else 0)
      ==> r.Some?
    ensures r.Some? ==> (r.value < 0 ==> text[0] == '-')
  {
    var digits := Digits(text);
    if 0 < |digits| <= MaxStrDigits && AllDigits(digits) then
      Some(if Negative(text) then -(DigitsValue(digits) as int) else DigitsValue(digits))
    else None
  }

  /** Shortest decimal digits of a natural number. */
  function NatDigits(n: nat): string
    decreases n
  {
    if n < 10 then [DigitChar(n)] else NatDigits(n / 10) + [DigitChar(n % 10)]
  }

  /** Decimal rendering of an integer, as Python's `str(int)`. */
  function Show(n: int): string {
    if n < 0 then "-" + NatDigits(-n) else NatDigits(n)
  }

  lemma {:induction false} NatDigitsValue(n: nat)
    ensures |NatDigits(n)| > 0 && AllDigits(NatDigits(n)) && DigitsValue(NatDigits(n)) == n
    decreases n
  {
    if n >= 10 {
      NatDigitsValue(n / 10);
      var s := NatDigits(n);
      assert s[..|s| - 1] == NatDigits(n / 10);
      assert s[|s| - 1] == DigitChar(n % 10);
    }
  }

  /** Every integer's decimal rendering parses back to that integer, as long
      as it stays within the digit limit. */
  lemma ParseShowRoundTrip(n: int)
    requires |NatDigits(if n < 0 then -n else n)| <= MaxStrDigits
    ensures ParseInt(Show(n)) == Some(n)
  {
    if n < 0 {
      NatDigitsValue(-n);
      var s := Show(n);
      assert s[1..] == NatDigits(-n);
    } else {
      NatDigitsValue(n);
    }
  }

  /** Drops leading zeros, keeping at least one digit. */
  function StripZeros(s: string): string
    decreases |s|
  {
    if |s| > 1 && s[0] == '0' then StripZeros(s[1..]) else s
  }

  lemma {:induction false} LeadingZeroValue(t: string)
    requires AllDigits(t)
    ensures AllDigits(['0'] + t) && DigitsValue(['0'] + t) == DigitsValue(t)
    decreases |t|
  {
    if |t| > 0 {
      LeadingZeroValue(t[..|t| - 1]);
      assert (['0'] + t)[..|t|] == ['0'] + t[..|t| - 1];
    }
  }

  lemma {:induction false} StripZerosValue(s: string)
    requires AllDigits(s)
    ensures AllDigits(StripZeros(s)) && DigitsValue(StripZeros(s)) == DigitsValue(s)
    ensures |s| > 0 ==> |StripZeros(s)| > 0 && (StripZeros(s)[0] != '0' || StripZeros(s) == "0")
    decreases |s|
  {
    if |s| > 1 && s[0] == '0' {
      StripZerosValue(s[1..]);
      LeadingZeroValue(s[1..]);
      assert s == ['0'] + s[1..];
    }
  }

  lemma {:induction false} PositiveWithoutLeadingZero(s: string)
    requires |s| > 0 && AllDigits(s) && s[0] != '0'
    ensures DigitsValue(s) > 0
    decreases |s|
  {
    if |s| > 1 {
      PositiveWithoutLeadingZero(s[..|s| - 1]);
    }
  }

  /** Digits without a leading zero are the rendering of their own value. */
  lemma {:induction false} NatDigitsOfValue(s: string)
    requires |s| > 0 && AllDigits(s) && (s[0] != '0' || s == "0")
    ensures NatDigits(DigitsValue(s)) == s
    decreases |s|
  {
    var n := DigitsValue(s);
    if |s| == 1 {
      assert DigitChar(DigitValue(s[0])) == s[0];
    } else {
      var init := s[..|s| - 1];
      PositiveWithoutLeadingZero(init);
      NatDigitsOfValue(init);
      assert n / 10 == DigitsValue(init) && n % 10 == DigitValue(s[|s| - 1]);
      assert DigitChar(DigitValue(s[|s| - 1])) == s[|s| - 1];
      assert s == init + [s[|s| - 1]];
    }
  }

  /** Converse of the round trip: an accepted text is the rendering of its
      value once leading zeros are dropped and a `-` before zero is
      forgotten. So `"007"` reads as 7 and `"-0"` as 0. */
  lemma ParseIntCanonical(text: string, n: int)
    requires ParseInt(text) == Some(n)
    ensures var d := StripZeros(Digits(text));
      Show(n) == if Negative(text) && d != "0" then "-" + d else d
  {
    var digits := Digits(text);
    var d := StripZeros(digits);
    StripZerosValue(digits);
    NatDigitsOfValue(d);
    if Negative(text) && d != "0" {
      PositiveWithoutLeadingZero(d);
    }
  }

  /** Text that is not decimal, such as an empty field or `"1.5"`, is refused. */
  lemma ParseIntRejects()
    ensures ParseInt("") == None
    ensures ParseInt("-") == None
    ensures ParseInt("1.5") == None
    ensures ParseInt("x10") == None
  {
    assert !AllDigits("1.5") by { assert !IsDigit("1.5"[1]); }
  }
}
