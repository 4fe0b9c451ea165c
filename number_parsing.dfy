/**
 * `parseInt(string, 10)` as section 19.2.5 of ECMA-262 defines it, and the
 * decimal text of an integer, as a template literal writes integers below 10^21.
 *
 * The parser skips leading white space, reads one optional sign, then the
 * longest run of decimal digits; no digit at all gives NaN (here `None`).
 * Everything after the digits is ignored.
 */
module NumberParsing {
  import opened Options

  /**
   * The code points TrimString removes: WhiteSpace (tab, vertical tab, form
   * feed, space, no-break space, zero width no-break space and the other
   * space separators of category Zs) and LineTerminator (line feed, carriage
   * return, line and paragraph separator).
   */
  predicate IsWhiteSpace(c: char)
  {
    var n := c as int;
    || n == 0x09 || n == 0x0B || n == 0x0C || n == 0x20 || n == 0xA0 || n == 0xFEFF
    || n == 0x1680 || (0x2000 <= n <= 0x200A) || n == 0x202F || n == 0x205F || n == 0x3000
    || n == 0x0A || n == 0x0D || n == 0x2028 || n == 0x2029
  }

  predicate IsDigit(c: char)
  {
    '0' <= c <= '9'
  }

  predicate AllDigits(s: string)
  {
    forall k :: 0 <= k < |s| ==> IsDigit(s[k])
  }

  function DigitValue(c: char): (d: nat)
    requires IsDigit(c)
    ensures d < 10
  {
    (c as int) - ('0' as int)
  }

  function DigitChar(d: nat): (c: char)
    requires d < 10
    ensures IsDigit(c) && DigitValue(c) == d
  {
    (('0' as int) + d) as char
  }

  /** The input without its leading white space. */
  function TrimStart(s: string): (r: string)
    ensures r == [] || !IsWhiteSpace(r[0])
  {
    if s != [] && IsWhiteSpace(s[0]) then TrimStart(s[1..]) else s
  }

  /** TrimStart removes exactly the leading white space: what it drops is white space, and the rest is a suffix of the input. */
  lemma {:induction false} TrimStartDropsWhiteSpace(s: string)
    ensures |TrimStart(s)| <= |s| && TrimStart(s) == s[|s| - |TrimStart(s)|..]
    ensures forall k :: 0 <= k < |s| - |TrimStart(s)| ==> IsWhiteSpace(s[k])
  {
    if s != [] && IsWhiteSpace(s[0]) {
      TrimStartDropsWhiteSpace(s[1..]);
    }
  }

  /** The longest prefix of s made of decimal digits. */
  function LeadingDigits(s: string): (d: string)
    ensures AllDigits(d) && d <= s
    ensures |d| == |s| || !IsDigit(s[|d|])
  {
    if s != [] && IsDigit(s[0]) then [s[0]] + LeadingDigits(s[1..]) else []
  }

  /** The number a string of decimal digits denotes, most significant digit first. */
  function DigitsValue(d: string): nat
    requires AllDigits(d)
  {
    if d == [] then 0 else DigitsValue(d[..|d| - 1]) * 10 + DigitValue(d[|d| - 1])
  }

  /** The value of the leading decimal digits; `None` (NaN) when there are none. */
  function ParseDigits(u: string): Option<nat>
  {
    var z := LeadingDigits(u);
    if z == [] then None else Some(DigitsValue(z))
  }

  /** parseInt(s, 10); `None` stands for NaN. */
  function ParseInt(s: string): Option<int>
  {
    var t := TrimStart(s);
    if t != [] && t[0] == '-' then
      match ParseDigits(t[1..])
      case None => None
      case Some(magnitude) => Some(-(magnitude as int))
    else
      var u := if t != [] && t[0] == '+' then t[1..] else t;
      match ParseDigits(u)
      case None => None
      case Some(magnitude) => Some(magnitude)
  }

  /** The decimal digits of n, without leading zeros. */
  function NatToString(n: nat): (s: string)
    ensures s != [] && AllDigits(s)
    ensures DigitsValue(s) == n
    ensures s[0] == '0' ==> n == 0
  {
    if n < 10 then [DigitChar(n)]
    else
      var prefix := NatToString(n / 10);
      assert (prefix + [DigitChar(n % 10)])[..|prefix|] == prefix;
      prefix + [DigitChar(n % 10)]
  }

  /**
   * The decimal text of an integer: a minus sign for negative values, then
   * the digits. A template literal writes integers below 10^21 this way.
   */
  function IntToString(n: int): string
  {
    if n < 0 then "-" + NatToString(-n) else NatToString(n)
  }

  lemma {:induction false} LeadingDigitsOfNumber(d: string, rest: string)
    requires AllDigits(d)
    requires rest == [] || !IsDigit(rest[0])
    ensures LeadingDigits(d + rest) == d
  {
    if d != [] {
      assert (d + rest)[1..] == d[1..] + rest;
      LeadingDigitsOfNumber(d[1..], rest);
      assert d == [d[0]] + d[1..];
    } else {
      assert d + rest == rest;
    }
  }

  /**
   * parseInt reads back a rendered integer, whatever text that does not start
   * with a digit follows it ("8abc" gives 8, "1e3" gives 1).
   */
  lemma ParseIntReadsRenderedInteger(n: int, rest: string)
    requires rest == [] || !IsDigit(rest[0])
    ensures ParseInt(IntToString(n) + rest) == Some(n)
  {
    if n < 0 {
      ParseIntReadsNegative(NatToString(-n), rest);
    } else {
      ParseIntReadsDigits(NatToString(n), rest);
    }
  }

  lemma ParseDigitsOfNumber(digits: string, rest: string)
    requires digits != [] && AllDigits(digits)
    requires rest == [] || !IsDigit(rest[0])
    ensures ParseDigits(digits + rest) == Some(DigitsValue(digits))
  {
    LeadingDigitsOfNumber(digits, rest);
  }

  lemma ParseIntReadsDigits(digits: string, rest: string)
    requires digits != [] && AllDigits(digits)
    requires rest == [] || !IsDigit(rest[0])
    ensures ParseInt(digits + rest) == Some(DigitsValue(digits))
  {
    var s := digits + rest;
    assert s[0] == digits[0] && IsDigit(s[0]);
    assert TrimStart(s) == s;
    ParseDigitsOfNumber(digits, rest);
  }

  lemma ParseIntReadsNegative(digits: string, rest: string)
    requires digits != [] && AllDigits(digits)
    requires rest == [] || !IsDigit(rest[0])
    ensures ParseInt("-" + digits + rest) == Some(-(DigitsValue(digits) as int))
  {
    var s := "-" + digits + rest;
    assert s[0] == '-';
    assert TrimStart(s) == s;
    assert s[1..] == digits + rest;
    ParseDigitsOfNumber(digits, rest);
  }

  /** The round trip: parseInt of the rendering of n is n. */
  lemma ParseIntRoundTrip(n: int)
    ensures ParseInt(IntToString(n)) == Some(n)
  {
    ParseIntReadsRenderedInteger(n, []);
    assert IntToString(n) + [] == IntToString(n);
  }

  lemma {:induction false} TrimStartSkipsWhiteSpace(ws: string, s: string)
    requires forall k :: 0 <= k < |ws| ==> IsWhiteSpace(ws[k])
    ensures TrimStart(ws + s) == TrimStart(s)
  {
    if ws != [] {
      assert (ws + s)[1..] == ws[1..] + s;
      TrimStartSkipsWhiteSpace(ws[1..], s);
    } else {
      assert ws + s == s;
    }
  }

  /** Leading white space does not change what parseInt reads. */
  lemma ParseIntSkipsWhiteSpace(ws: string, s: string)
    requires forall k :: 0 <= k < |ws| ==> IsWhiteSpace(ws[k])
    ensures ParseInt(ws + s) == ParseInt(s)
  {
    TrimStartSkipsWhiteSpace(ws, s);
  }

  /**
   * parseInt gives NaN exactly when, after the white space and one optional
   * sign, the text does not start with a digit.
   */
  lemma ParseIntNaN(s: string)
    ensures var t := TrimStart(s);
            var u := if t != [] && (t[0] == '+' || t[0] == '-') then t[1..] else t;
            ParseInt(s).None? <==> (u == [] || !IsDigit(u[0]))
  {
  }

  /** Text without digits is NaN: "abc", the empty string, a lone sign. */
  lemma ParseIntRejectsNonNumeric()
    ensures ParseInt("abc") == None
    ensures ParseInt("") == None
    ensures ParseInt("-") == None
    ensures ParseInt(" +x1") == None
  {
    ParseIntNaN("abc");
    ParseIntNaN("");
    ParseIntNaN("-");
    ParseIntNaN(" +x1");
    assert TrimStart("abc") == "abc";
    assert TrimStart("-") == "-" && "-"[1..] == [];
    assert TrimStart(" +x1") == "+x1" by {
      assert " +x1"[1..] == "+x1";
    }
    assert "+x1"[1..] == "x1";
  }
}
