/** The two number conversions the property editor uses on the bedroom and
    bathroom fields: `parseInt(text)` (no radix) and `Number.prototype.toString`
    on an integer. Numbers are exact integers here. */
module Numbers {
  import opened Text
  import opened Wrappers

  /** The value of a digit character in radix 36, if it is one. */
  function DigitValue(c: char): (r: Option<nat>)
    ensures r.Some? ==> r.value < 36
    ensures IsDigit(c) <==> r.Some? && r.value < 10
  {
    if '0' <= c <= '9' then Some(c as int - '0' as int)
    else if 'a' <= c <= 'z' then Some(c as int - 'a' as int + 10)
    else if 'A' <= c <= 'Z' then Some(c as int - 'A' as int + 10)
    else None
  }

  predicate IsRadixDigit(c: char, radix: nat)
  {
    DigitValue(c).Some? && DigitValue(c).value < radix
  }

  /** The length of the longest prefix made of digits of the radix. */
  function DigitRun(s: string, radix: nat): (n: nat)
    ensures n <= |s|
    ensures forall i :: 0 <= i < n ==> IsRadixDigit(s[i], radix)
    ensures n < |s| ==> !IsRadixDigit(s[n], radix)
  {
    if s == [] || !IsRadixDigit(s[0], radix) then 0 else 1 + DigitRun(s[1..], radix)
  }

  /** The value of a string of digits, most significant first (callers
      apply it to digit runs only; a non-digit would count as zero). */
  function DigitsValue(s: string, radix: nat): nat
  {
    if s == [] then 0
    else
      var v := DigitValue(s[|s| - 1]);
      DigitsValue(s[..|s| - 1], radix) * radix + (if v.Some? then v.value else 0)
  }

  /** The magnitude `parseInt` reads after the sign: a `0x`/`0X` prefix
      selects radix 16 (otherwise 10), and the longest run of digits that
      follows is the value; no digits at all is NaN, written `None`. */
  function ParseMagnitude(unsigned: string): Option<nat>
  {
    var hex := |unsigned| >= 2 && unsigned[0] == '0' && (unsigned[1] == 'x' || unsigned[1] == 'X');
    var radix: nat := if hex then 16 else 10;
    var body := if hex then unsigned[2..] else unsigned;
    var n := DigitRun(body, radix);
    if n == 0 then None else Some(DigitsValue(body[..n], radix))
  }

  /** `parseInt(s)`: leading white space is skipped and one sign is read
      before the magnitude. */
  function ParseInt(s: string): Option<int>
  {
    var t := TrimStart(s);
    var negative := t != [] && t[0] == '-';
    var unsigned := if t != [] && (t[0] == '-' || t[0] == '+') then t[1..] else t;
    match ParseMagnitude(unsigned)
    case None => None
    case Some(m) => Some(if negative then -(m as int) else m as int)
  }

  function DigitChar(d: nat): (c: char)
    requires d < 10
    ensures IsDigit(c) && DigitValue(c) == Some(d)
  {
    ('0' as int + d) as char
  }

  /** The decimal digits of `n`, without leading zeros. */
  function NatToString(n: nat): (s: string)
    ensures s != []
    ensures forall i :: 0 <= i < |s| ==> IsDigit(s[i])
  {
    if n < 10 then [DigitChar(n)] else NatToString(n / 10) + [DigitChar(n % 10)]
  }

  /** `n.toString()` for an integer `n`. */
  function IntToString(n: int): (s: string)
    ensures s != []
  {
    if n < 0 then "-" + NatToString(-n) else NatToString(n)
  }

  lemma {:induction false} NatToStringValue(n: nat)
    ensures forall i :: 0 <= i < |NatToString(n)| ==> IsRadixDigit(NatToString(n)[i], 10)
    ensures DigitsValue(NatToString(n), 10) == n
  {
    var s := NatToString(n);
    if n >= 10 {
      NatToStringValue(n / 10);
      assert s[..|s| - 1] == NatToString(n / 10);
    }
  }

  /** A run of decimal digits followed by text that does not start with a
      digit is read as that run's value, unless the run is a lone `0` and the
      text starts with `x` or `X`, which selects radix 16. */
  lemma {:induction false} MagnitudeOfDigits(d: string, rest: string)
    requires d != [] && forall i :: 0 <= i < |d| ==> IsDigit(d[i])
    requires rest == [] || !IsDigit(rest[0])
    requires |d| == 1 && d[0] == '0' && rest != [] ==> rest[0] != 'x' && rest[0] != 'X'
    ensures forall i :: 0 <= i < |d| ==> IsRadixDigit(d[i], 10)
    ensures ParseMagnitude(d + rest) == Some(DigitsValue(d, 10))
  {
    var s := d + rest;
    if |d| >= 2 {
      assert s[1] == d[1];
    } else if rest != [] {
      assert s[1] == rest[0];
    }
    DigitRunOfPrefix(d, rest);
    assert s[..|d|] == d;
  }

  /** `parseInt(n.toString())` gives `n` back for every integer. */
  lemma {:induction false} ParseIntToString(n: int)
    ensures ParseInt(IntToString(n)) == Some(n)
  {
    if n < 0 {
      ParseNegative(n);
    } else {
      NonNegativeRoundTrip(n);
    }
  }

  lemma {:induction false} NonNegativeRoundTrip(n: int)
    requires n >= 0
    ensures ParseInt(IntToString(n)) == Some(n)
  {
    MagnitudeOfNumeral(n);
    UnsignedParse(NatToString(n));
  }

  lemma {:induction false} ParseNegative(n: int)
    requires n < 0
    ensures ParseInt(IntToString(n)) == Some(n)
  {
    MagnitudeOfNumeral(-n);
    SignedMagnitude(IntToString(n), NatToString(-n), -n);
  }

  /** The decimal numeral of `n` reads back as `n`. */
  lemma {:induction false} MagnitudeOfNumeral(n: nat)
    ensures ParseMagnitude(NatToString(n)) == Some(n)
  {
    var d := NatToString(n);
    NatToStringValue(n);
    MagnitudeOfDigits(d, "");
    assert d + "" == d;
  }

  /** A numeral that starts with a digit is read without sign or blank. */
  lemma {:induction false} UnsignedParse(s: string)
    requires s != [] && IsDigit(s[0])
    ensures ParseInt(s) == ParseMagnitude(s)
  {
    assert !IsJsWhitespace(s[0]);
    assert TrimStart(s) == s;
    assert s[0] != '-' && s[0] != '+';
  }

  /** With a leading minus sign the magnitude after it is negated. */
  lemma {:induction false} SignedMagnitude(s: string, d: string, m: nat)
    requires s == "-" + d && ParseMagnitude(d) == Some(m)
    ensures ParseInt(s) == Some(-(m as int))
  {
    MinusIsNotBlank(s, d);
    assert s[1..] == d;
  }

  lemma {:induction false} MinusIsNotBlank(s: string, d: string)
    requires s == "-" + d
    ensures TrimStart(s) == s
  {
    assert s[0] == '-';
  }

  /** `parseInt` reads only the leading numeral: any text after it that does
      not start with a digit is ignored (`"3br"` is 3), except that `x` or `X`
      right after a lone `0` makes the text a hexadecimal numeral. */
  lemma {:induction false} ParseIgnoresSuffix(n: nat, rest: string)
    requires rest == [] || !IsDigit(rest[0])
    requires n == 0 && rest != [] ==> rest[0] != 'x' && rest[0] != 'X'
    ensures ParseInt(NatToString(n) + rest) == Some(n)
  {
    var d := NatToString(n);
    NatToStringValue(n);
    if |d| == 1 && d[0] == '0' {
      LoneZeroNumeral(n);
    }
    MagnitudeOfDigits(d, rest);
    assert (d + rest)[0] == d[0];
    UnsignedParse(d + rest);
  }

  /** The numeral `0` is written only for zero. */
  lemma {:induction false} LoneZeroNumeral(n: nat)
    requires |NatToString(n)| == 1 && NatToString(n)[0] == '0'
    ensures n == 0
  {
    if n < 10 {
      assert DigitValue(DigitChar(n)) == Some(n);
    }
  }

  /** A count typed with a unit after it, such as `"3br"`, reads as 3. */
  lemma {:induction false} CountWithUnit()
    ensures ParseInt("3br") == Some(3)
  {
    ParseIgnoresSuffix(3, "br");
    assert NatToString(3) + "br" == "3br";
  }

  lemma {:induction false} DigitRunOfPrefix(d: string, rest: string)
    requires forall i :: 0 <= i < |d| ==> IsDigit(d[i])
    requires rest == [] || !IsDigit(rest[0])
    ensures DigitRun(d + rest, 10) == |d|
  {
    if d != [] {
      assert (d + rest)[1..] == d[1..] + rest;
      DigitRunOfPrefix(d[1..], rest);
    } else {
      assert d + rest == rest;
    }
  }

  /** Without any digit (after white space, sign and hex prefix) the result
      is NaN: an empty or blank field, or a word, parses to `None`. */
  lemma {:induction false} ParseBlankIsNaN(s: string)
    requires forall i :: 0 <= i < |s| ==> IsJsWhitespace(s[i])
    ensures ParseInt(s) == None
  {
  }
}
