/** The JavaScript string built-ins the client scripts rely on:
    String.prototype.trim, parseInt and Number on integer text, and the
    `parseInt(x) || 1` idiom both page restorers use. */
module JsText {
  import opened Common

  /** The white space trim removes: tab, the vertical tab and form feed,
      the byte-order mark, every space separator (category Zs) and the four
      line terminators. */
  predicate JsWhitespace(c: char)
  {
    c == '\t' || c == '\U{000B}' || c == '\U{000C}' || c == '\U{FEFF}'
    // the space separators
    || c == ' ' || c == '\U{00A0}' || c == '\U{1680}' || '\U{2000}' <= c <= '\U{200A}'
    || c == '\U{202F}' || c == '\U{205F}' || c == '\U{3000}'
    // the line terminators
    || c == '\n' || c == '\r' || c == '\U{2028}' || c == '\U{2029}'
  }

  /** Lower-casing neither makes nor removes white space. */
  lemma LowerCharKeepsWhitespace(c: char)
    ensures JsWhitespace(LowerChar(c)) == JsWhitespace(c)
  {
  }

  /** String.prototype.trim. */
  function JsTrim(s: string): (r: string)
    ensures |r| <= |s|
    ensures |r| > 0 ==> !JsWhitespace(r[0]) && !JsWhitespace(r[|r| - 1])
    ensures forall c :: c in r ==> c in s
    ensures r == "" <==> forall i :: 0 <= i < |s| ==> JsWhitespace(s[i])
    decreases |s|
  {
    if |s| == 0 then ""
    else if JsWhitespace(s[0]) then
      assert forall c :: c in s[1..] ==> c in s;
      JsTrim(s[1..])
    else if JsWhitespace(s[|s| - 1]) then
      assert forall c :: c in s[..|s| - 1] ==> c in s;
      JsTrim(s[..|s| - 1])
    else s
  }

  /** Trimming a trimmed string changes nothing. */
  lemma JsTrimIdempotent(s: string)
    ensures JsTrim(JsTrim(s)) == JsTrim(s)
  {
  }

  predicate AllDigits(s: string) { forall i :: 0 <= i < |s| ==> IsDigit(s[i]) }

  /** The longest run of decimal digits at the start of s. */
  function LeadingDigits(s: string): (r: string)
    ensures |r| <= |s| && r == s[..|r|]
    ensures forall i :: 0 <= i < |r| ==> IsDigit(r[i])
    ensures |r| < |s| ==> !IsDigit(s[|r|])
  {
    if |s| == 0 || !IsDigit(s[0]) then "" else [s[0]] + LeadingDigits(s[1..])
  }

  predicate IsHexDigit(c: char) { IsDigit(c) || 'a' <= c <= 'f' || 'A' <= c <= 'F' }

  predicate AllHexDigits(s: string) { forall i :: 0 <= i < |s| ==> IsHexDigit(s[i]) }

  function HexDigitValue(c: char): (d: nat)
    requires IsHexDigit(c)
    ensures d < 16
  {
    if IsDigit(c) then DigitValue(c)
    else if 'a' <= c <= 'f' then c as int - 'a' as int + 10
    else c as int - 'A' as int + 10
  }

  /** The value of a run of hexadecimal digits. */
  function HexValue(s: string): nat
    requires AllHexDigits(s)
  {
    if |s| == 0 then 0 else 16 * HexValue(s[..|s| - 1]) + HexDigitValue(s[|s| - 1])
  }

  /** The longest run of hexadecimal digits at the start of s. */
  function LeadingHexDigits(s: string): (r: string)
    ensures |r| <= |s| && r == s[..|r|]
    ensures AllHexDigits(r)
    ensures |r| < |s| ==> !IsHexDigit(s[|r|])
  {
    if |s| == 0 || !IsHexDigit(s[0]) then "" else [s[0]] + LeadingHexDigits(s[1..])
  }

  /** Text that starts with "0x" or "0X", which switches the radix to 16. */
  predicate HexPrefixed(t: string)
  {
    |t| >= 2 && t[0] == '0' && (t[1] == 'x' || t[1] == 'X')
  }

  function DropLeadingWhitespace(s: string): (r: string)
    ensures |r| <= |s| && r == s[|s| - |r|..]
    ensures |r| > 0 ==> !JsWhitespace(r[0])
  {
    if |s| == 0 || !JsWhitespace(s[0]) then s else DropLeadingWhitespace(s[1..])
  }

  /** parseInt(s) with the default radix: leading white space is skipped
      and the rest read as a signed number, in hexadecimal after a "0x" or
      "0X" prefix and in decimal otherwise; None stands for NaN. */
  function JsParseInt(s: string): (r: Option<int>)
    ensures r.Some? ==> |DropLeadingWhitespace(s)| > 0
  {
    SignedLeadingDigits(DropLeadingWhitespace(s))
  }

  /** One optional sign, the digits that follow it, and the rest ignored. */
  function SignedLeadingDigits(t: string): (r: Option<int>)
    ensures r.Some? ==> |t| > 0
  {
    var negative := |t| > 0 && t[0] == '-';
    var body := if |t| > 0 && (t[0] == '+' || t[0] == '-') then t[1..] else t;
    if HexPrefixed(body) then
      var digits := LeadingHexDigits(body[2..]);
      if |digits| == 0 then None
      else Some(if negative then -(HexValue(digits) as int) else HexValue(digits))
    else
      var digits := LeadingDigits(body);
      if |digits| == 0 then None
      else Some(if negative then -(DigitsValue(digits) as int) else DigitsValue(digits))
  }

  /** parseInt reads back a page number it wrote, and stops at the first
      character that is not a digit. */
  lemma JsParseIntOfNatToString(n: nat, rest: string)
    requires |rest| == 0 || !IsDigit(rest[0])
    requires !HexPrefixed(NatToString(n) + rest)
    ensures JsParseInt(NatToString(n) + rest) == Some(n)
  {
    JsParseIntOfDigits(NatToString(n), rest);
    DigitsValueOfNatToString(n);
  }

  lemma JsParseIntOfDigits(d: string, rest: string)
    requires |d| > 0 && AllDigits(d)
    requires |rest| == 0 || !IsDigit(rest[0])
    requires !HexPrefixed(d + rest)
    ensures JsParseInt(d + rest) == Some(DigitsValue(d))
  {
    assert (d + rest)[0] == d[0];
    JsParseIntOfDigitFirst(d + rest);
    LeadingDigitsOfPrefix(d, rest);
  }

  /** Text that starts with a digit, and not with the hexadecimal prefix,
      is read as its leading decimal digits. */
  lemma JsParseIntOfDigitFirst(s: string)
    requires |s| > 0 && IsDigit(s[0]) && !HexPrefixed(s)
    ensures JsParseInt(s) == Some(DigitsValue(LeadingDigits(s)))
  {
    assert DropLeadingWhitespace(s) == s;
    SignedLeadingDigitsOfDigitFirst(s);
  }

  lemma SignedLeadingDigitsOfDigitFirst(t: string)
    requires |t| > 0 && IsDigit(t[0]) && !HexPrefixed(t)
    ensures SignedLeadingDigits(t) == Some(DigitsValue(LeadingDigits(t)))
  {
    assert t[0] != '+' && t[0] != '-';
    assert |LeadingDigits(t)| > 0;
  }

  lemma {:induction false} LeadingDigitsOfPrefix(d: string, rest: string)
    requires forall i :: 0 <= i < |d| ==> IsDigit(d[i])
    requires |rest| == 0 || !IsDigit(rest[0])
    ensures LeadingDigits(d + rest) == d
  {
    if |d| > 0 {
      assert (d + rest)[1..] == d[1..] + rest;
      LeadingDigitsOfPrefix(d[1..], rest);
      assert [d[0]] + d[1..] == d;
    } else {
      assert d + rest == rest;
    }
  }

  /** After the prefix "0x", the hexadecimal digits are read up to the
      first character that is not one; a sign in front applies to them. */
  lemma JsParseIntOfHex(d: string, rest: string)
    requires |d| > 0 && AllHexDigits(d)
    requires |rest| == 0 || !IsHexDigit(rest[0])
    ensures JsParseInt("0x" + (d + rest)) == Some(HexValue(d))
    ensures JsParseInt("-" + ("0x" + (d + rest))) == Some(-(HexValue(d) as int))
  {
    var body := d + rest;
    var s := "0x" + body;
    DropPrefix("0x", body);
    LeadingHexDigitsOfPrefix(d, rest);
    assert s[0] == '0' && s[1] == 'x';
    PlainHex(s, d);
    NegatedHex(s, d);
  }

  lemma PlainHex(s: string, d: string)
    requires HexPrefixed(s) && |d| > 0 && LeadingHexDigits(s[2..]) == d
    ensures JsParseInt(s) == Some(HexValue(d))
  {
    NoLeadingWhitespace(s);
  }

  lemma NegatedHex(s: string, d: string)
    requires HexPrefixed(s) && |d| > 0 && LeadingHexDigits(s[2..]) == d
    ensures JsParseInt("-" + s) == Some(-(HexValue(d) as int))
  {
    var m := "-" + s;
    DropPrefix("-", s);
    NoLeadingWhitespace(m);
  }

  lemma NoLeadingWhitespace(t: string)
    requires |t| > 0 && !JsWhitespace(t[0])
    ensures DropLeadingWhitespace(t) == t
  {
  }

  lemma DropPrefix(p: string, t: string)
    ensures (p + t)[|p|..] == t
  {
  }

  lemma {:induction false} LeadingHexDigitsOfPrefix(d: string, rest: string)
    requires AllHexDigits(d)
    requires |rest| == 0 || !IsHexDigit(rest[0])
    ensures LeadingHexDigits(d + rest) == d
  {
    if |d| > 0 {
      assert (d + rest)[1..] == d[1..] + rest;
      LeadingHexDigitsOfPrefix(d[1..], rest);
      assert [d[0]] + d[1..] == d;
    } else {
      assert d + rest == rest;
    }
  }

  /** `parseInt(x) || 1`: NaN and 0 are falsy and give 1; a missing
      parameter reads as null, which parses to NaN. */
  function PageOrOne(x: Option<string>): (p: int)
    ensures p != 0
    ensures x.None? ==> p == 1
    ensures x.Some? && JsParseInt(x.value).Some? && JsParseInt(x.value).value != 0 ==> p == JsParseInt(x.value).value
    ensures x.Some? && (JsParseInt(x.value).None? || JsParseInt(x.value) == Some(0)) ==> p == 1
  {
    if x.None? then 1
    else match JsParseInt(x.value)
      case None => 1
      case Some(n) => if n == 0 then 1 else n
  }

  /** A page written as its number is read back, except that page 0 comes
      back as page 1. */
  lemma PageOrOneRoundTrip(n: nat)
    ensures PageOrOne(Some(NatToString(n))) == if n == 0 then 1 else n
  {
    NoHexPrefixOfNatToString(n);
    JsParseIntOfNatToString(n, "");
    assert NatToString(n) + "" == NatToString(n);
  }

  /** A number written in decimal never looks like a hexadecimal prefix. */
  lemma NoHexPrefixOfNatToString(n: nat)
    ensures !HexPrefixed(NatToString(n))
  {
    var t := NatToString(n);
    if |t| >= 2 {
      assert IsDigit(t[1]);
    }
  }

  /** A page parameter written in hexadecimal is read as its value. */
  lemma PageOrOneOfHex()
    ensures PageOrOne(Some("0x10")) == 16
  {
    var d := "10";
    assert "0x10" == "0x" + (d + "");
    assert HexValue(d) == 16 by {
      assert d[..1] == "1";
      assert HexValue(d[..1]) == 1 by { assert d[..1][..0] == ""; }
    }
    JsParseIntOfHex(d, "");
  }

  /** Number(s) on integer text: the trimmed text is read as a whole, an
      empty one as 0, an unsigned one after "0x" or "0X" in hexadecimal;
      None stands for NaN. */
  function JsNumber(s: string): (r: Option<int>)
    ensures JsTrim(s) == "" ==> r == Some(0)
  {
    var t := JsTrim(s);
    var negative := |t| > 0 && t[0] == '-';
    var body := if |t| > 0 && (t[0] == '+' || t[0] == '-') then t[1..] else t;
    if t == "" then Some(0)
    else if HexPrefixed(t) then
      if |t| > 2 && AllHexDigits(t[2..]) then Some(HexValue(t[2..])) else None
    else if |body| > 0 && AllDigits(body) then
      Some(if negative then -(DigitsValue(body) as int) else DigitsValue(body))
    else None
  }

  /** Number reads back what String wrote. */
  lemma JsNumberOfNatToString(n: nat)
    ensures JsNumber(NatToString(n)) == Some(n)
  {
    JsNumberOfDigits(NatToString(n));
    DigitsValueOfNatToString(n);
  }

  /** Decimal digits alone are read as their value. */
  lemma JsNumberOfDigits(d: string)
    requires |d| > 0 && AllDigits(d)
    ensures JsNumber(d) == Some(DigitsValue(d))
  {
    assert IsDigit(d[0]) && IsDigit(d[|d| - 1]);
    assert !JsWhitespace(d[0]) && !JsWhitespace(d[|d| - 1]);
    assert JsTrim(d) == d;
    assert d[0] != '+' && d[0] != '-';
    assert |d| >= 2 ==> IsDigit(d[1]);
  }

  /** Number reads back any integer String wrote, negative ones included. */
  lemma JsNumberOfIntToString(i: int)
    ensures JsNumber(IntToString(i)) == Some(i)
  {
    if i >= 0 {
      JsNumberOfNatToString(i);
    } else {
      var d := NatToString(-i);
      calc {
        JsNumber(IntToString(i));
        JsNumber("-" + d);
        { JsNumberOfNegative(d); }
        Some(-(DigitsValue(d) as int));
        { DigitsValueOfNatToString(-i); }
        Some(i);
      }
    }
  }

  /** A minus sign before decimal digits negates their value. */
  lemma JsNumberOfNegative(d: string)
    requires |d| > 0 && AllDigits(d)
    ensures JsNumber("-" + d) == Some(-(DigitsValue(d) as int))
  {
    var s := "-" + d;
    assert s[1..] == d;
    assert !JsWhitespace(s[0]) && !JsWhitespace(s[|s| - 1]);
    assert JsTrim(s) == s;
  }

  /** Number reads "NaN" as NaN. */
  lemma JsNumberOfNaN()
    ensures JsNumber("NaN") == None
  {
    var t := "NaN";
    assert t[0] == 'N' && t[|t| - 1] == 'N';
    JsNumberOfNonDigit(t);
  }

  /** Text that starts with neither white space, a sign, a digit, a
      decimal point nor the "I" of Infinity, and does not end in white
      space, is NaN. */
  lemma JsNumberOfNonDigit(s: string)
    requires |s| > 0 && !JsWhitespace(s[0]) && !JsWhitespace(s[|s| - 1])
    requires s[0] != '+' && s[0] != '-' && !IsDigit(s[0]) && s[0] != '.' && s[0] != 'I'
    ensures JsNumber(s) == None
  {
    assert JsTrim(s) == s;
    assert !AllDigits(s);
  }
}
