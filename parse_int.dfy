/** `Integer.parseInt(s)` as the labyrinth loader uses it for the width and height
    lines, with `Integer.toString` as its inverse. */
module JavaParse {
  import opened Types

  predicate IsDigit(ch: char) { '0' <= ch <= '9' }

  predicate AllDigits(s: string) { forall i :: 0 <= i < |s| ==> IsDigit(s[i]) }

  /** The value of a string of decimal digits, most significant first. */
  function DigitsValue(s: string): (n: nat)
    requires AllDigits(s)
  {
    if |s| == 0 then 0
    else DigitsValue(s[..|s| - 1]) * 10 + (s[|s| - 1] as int - '0' as int)
  }

  /** The decimal digits of `n`, without leading zeros. */
  function Digits(n: nat): (s: string)
    ensures |s| > 0 && AllDigits(s)
  {
    if n < 10 then [('0' as int + n) as char]
    else Digits(n / 10) + [('0' as int + n % 10) as char]
  }

  /** `Integer.toString(n)`. */
  function Show(n: Int32): (s: string)
  {
    if n < 0 then "-" + Digits(0 - n as int) else Digits(n)
  }

  /** `Integer.parseInt(s)`: an optional `-` or `+`, then one or more digits, whose value
      must fit in an `int`; anything else is a `NumberFormatException` (`None`). */
  function ParseInt(s: string): (r: Option<Int32>)
    ensures r.Some? ==> (|s| > 0 && AllDigits(s)) ||
                        (|s| > 1 && (s[0] == '-' || s[0] == '+') && AllDigits(s[1..]))
    ensures r.Some? && r.value < 0 ==> s[0] == '-'
  {
    if |s| == 0 then None
    else if s[0] == '-' || s[0] == '+' then
      if |s| == 1 || !AllDigits(s[1..]) then None
      else
        var v: int := if s[0] == '-' then 0 - DigitsValue(s[1..]) as int else DigitsValue(s[1..]);
        if MIN_INT <= v <= MAX_INT then Some(v) else None
    else if !AllDigits(s) then None
    else
      var v := DigitsValue(s);
      if v <= MAX_INT then Some(v) else None
  }

  lemma {:induction false} DigitsValueOfDigits(n: nat)
    ensures DigitsValue(Digits(n)) == n
  {
    if n >= 10 {
      var s := Digits(n / 10) + [('0' as int + n % 10) as char];
      assert s[..|s| - 1] == Digits(n / 10);
      DigitsValueOfDigits(n / 10);
    }
  }

  /** Every `int` survives `Integer.toString` followed by `Integer.parseInt`. */
  lemma ParseShow(n: Int32)
    ensures ParseInt(Show(n)) == Some(n)
  {
    DigitsValueOfDigits(if n < 0 then 0 - n as int else n);
    if n < 0 {
      assert Show(n)[1..] == Digits(0 - n as int);
    } else {
      assert Show(n)[0] != '-' && Show(n)[0] != '+' by { assert IsDigit(Digits(n)[0]); }
    }
  }

  /** Any non-empty run of digits, with or without a leading `+` and leading zeros
      included, parses to its decimal value when that fits in an `int`, and is rejected
      otherwise; with a leading `-` it parses to minus that value, down to
      `Integer.MIN_VALUE`. */
  lemma ParseDigits(s: string)
    requires |s| > 0 && AllDigits(s)
    ensures ParseInt("+" + s) == ParseInt(s)
    ensures DigitsValue(s) <= MAX_INT ==> ParseInt(s) == Some(DigitsValue(s))
    ensures DigitsValue(s) > MAX_INT ==> ParseInt(s) == None
    ensures DigitsValue(s) <= 0x8000_0000 ==> ParseInt("-" + s) == Some(0 - DigitsValue(s))
    ensures DigitsValue(s) > 0x8000_0000 ==> ParseInt("-" + s) == None
  {
    assert s[0] != '-' && s[0] != '+' by { assert IsDigit(s[0]); }
    ParseSigned(s, '+');
    ParseSigned(s, '-');
  }

  /** A sign followed by digits is parsed as the digits, negated for `-`. */
  lemma ParseSigned(s: string, sign: char)
    requires |s| > 0 && AllDigits(s) && (sign == '+' || sign == '-')
    ensures var v: int := if sign == '-' then 0 - DigitsValue(s) else DigitsValue(s);
      ParseInt([sign] + s) == if MIN_INT <= v <= MAX_INT then Some(v) else None
  {
    var t := [sign] + s;
    assert t[1..] == s;
    assert t[0] == sign && |t| != 1 && AllDigits(t[1..]);
  }

  /** A string holding anything but an optional sign and digits is rejected. */
  lemma ParseRejectsNonDigit(s: string, i: nat)
    requires 0 < i < |s| && !IsDigit(s[i])
    ensures ParseInt(s) == None
  {
    if s[0] == '-' || s[0] == '+' {
      assert !IsDigit(s[1..][i - 1]);
    }
  }
}
