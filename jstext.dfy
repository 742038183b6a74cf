/** The JavaScript string primitives the pipeline relies on, with their
    ECMAScript meaning: `trim`, `toLowerCase` (on ASCII letters), the decimal
    text of an integer (`${n}` in a template literal, `Number.prototype.toString`)
    and `parseInt(s, 10)`. */
module JsText {
  import opened Wrappers
  import opened Seqs

  /** The characters `String.prototype.trim` and `parseInt` skip: WhiteSpace
      (tab, vertical tab, form feed, space, no-break space, byte order mark and
      the other Unicode space separators) and LineTerminator (LF, CR, line and
      paragraph separators). */
  predicate IsJsWhitespace(c: char) {
    c == '\t' || c == '\n' || c == '\U{000B}' || c == '\U{000C}' || c == '\r' || c == ' '
    || c == '\U{00A0}' || c == '\U{1680}' || ('\U{2000}' <= c <= '\U{200A}')
    || c == '\U{2028}' || c == '\U{2029}' || c == '\U{202F}' || c == '\U{205F}'
    || c == '\U{3000}' || c == '\U{FEFF}'
  }

  /** `trimStart`: drops the leading whitespace. */
  function TrimStart(s: string): string
    decreases |s|
  {
    if s != [] && IsJsWhitespace(s[0]) then TrimStart(s[1..]) else s
  }

  /** `trimStart` drops exactly the leading whitespace: what it removes is
      whitespace, and what it keeps is a suffix that starts with a character
      that is not. */
  lemma {:induction false} TrimStartSpec(s: string)
    ensures EndsWith(s, TrimStart(s))
    ensures TrimStart(s) == [] || !IsJsWhitespace(TrimStart(s)[0])
    ensures forall i :: 0 <= i < |s| - |TrimStart(s)| ==> IsJsWhitespace(s[i])
    decreases |s|
  {
    if s != [] && IsJsWhitespace(s[0]) {
      TrimStartSpec(s[1..]);
      assert forall i :: 1 <= i < |s| ==> s[i] == s[1..][i - 1];
    }
  }

  /** `trimEnd`: drops the trailing whitespace. */
  function TrimEnd(s: string): string
    decreases |s|
  {
    if s != [] && IsJsWhitespace(s[|s| - 1]) then TrimEnd(s[..|s| - 1]) else s
  }

  /** `trimEnd` drops exactly the trailing whitespace. */
  lemma {:induction false} TrimEndSpec(s: string)
    ensures StartsWith(s, TrimEnd(s))
    ensures TrimEnd(s) == [] || !IsJsWhitespace(TrimEnd(s)[|TrimEnd(s)| - 1])
    ensures forall i :: |TrimEnd(s)| <= i < |s| ==> IsJsWhitespace(s[i])
    decreases |s|
  {
    if s != [] && IsJsWhitespace(s[|s| - 1]) {
      TrimEndSpec(s[..|s| - 1]);
      assert forall i :: 0 <= i < |s| - 1 ==> s[i] == s[..|s| - 1][i];
    }
  }

  /** `String.prototype.trim`. */
  function Trim(s: string): string {
    TrimEnd(TrimStart(s))
  }

  /** Trimming text framed by whitespace recovers the text, provided it
      neither starts nor ends with whitespace itself. */
  lemma TrimFramed(before: string, text: string, after: string)
    requires forall i :: 0 <= i < |before| ==> IsJsWhitespace(before[i])
    requires forall i :: 0 <= i < |after| ==> IsJsWhitespace(after[i])
    requires text != [] && !IsJsWhitespace(text[0]) && !IsJsWhitespace(text[|text| - 1])
    ensures Trim(before + text + after) == text
  {
    var s := before + text + after;
    TrimStartSpec(s);
    var r := TrimStart(s);
    TrimEndSpec(r);
    var k := |s| - |r|;
    assert s[|before|] == text[0];
    assert k == |before|;
    assert r == text + after;
    var t := TrimEnd(r);
    assert r[|text| - 1] == text[|text| - 1];
    assert |t| == |text|;
  }

  /** `toLowerCase` on one character, for the ASCII letters. */
  function LowerChar(c: char): char {
    if 'A' <= c <= 'Z' then (c as int - 'A' as int + 'a' as int) as char else c
  }

  /** `String.prototype.toLowerCase`, restricted to ASCII case mapping. */
  function ToLower(s: string): (r: string)
    ensures |r| == |s|
  {
    seq(|s|, i requires 0 <= i < |s| => LowerChar(s[i]))
  }

  predicate IsDigit(c: char) {
    '0' <= c <= '9'
  }

  function DigitValue(c: char): (d: nat)
    requires IsDigit(c)
    ensures d < 10
  {
    c as int - '0' as int
  }

  function DigitChar(d: nat): (c: char)
    requires d < 10
    ensures IsDigit(c) && DigitValue(c) == d
  {
    (d + '0' as int) as char
  }

  /** The decimal text of a natural number, without leading zeros. */
  function NatToString(n: nat): (r: string)
    ensures r != [] && forall i :: 0 <= i < |r| ==> IsDigit(r[i])
    ensures r[0] == '0' ==> n == 0
    decreases n
  {
    if n < 10 then [DigitChar(n)] else NatToString(n / 10) + [DigitChar(n % 10)]
  }

  /** The text `${n}` gives for an integer-valued number. */
  function IntToString(n: int): string {
    if n < 0 then "-" + NatToString(-n) else NatToString(n)
  }

  /** The base-10 value of a string of digits, most significant first. */
  function DecimalValue(ds: string): nat
    requires forall i :: 0 <= i < |ds| ==> IsDigit(ds[i])
    decreases |ds|
  {
    if ds == [] then 0 else DecimalValue(ds[..|ds| - 1]) * 10 + DigitValue(ds[|ds| - 1])
  }

  /** Reading back the decimal text of `n` gives `n`. */
  lemma {:induction false} DecimalValueOfNatToString(n: nat)
    ensures DecimalValue(NatToString(n)) == n
    decreases n
  {
    if n >= 10 {
      DecimalValueOfNatToString(n / 10);
      var s := NatToString(n);
      assert s[..|s| - 1] == NatToString(n / 10);
    }
  }

  /** The longest prefix of `s` made of decimal digits. */
  function LeadingDigits(s: string): (r: string)
    ensures forall i :: 0 <= i < |r| ==> IsDigit(r[i])
    decreases |s|
  {
    if s != [] && IsDigit(s[0]) then [s[0]] + LeadingDigits(s[1..]) else []
  }

  /** `LeadingDigits` is a prefix, and the character after it is not a
      digit: no longer run of digits starts the text. */
  lemma {:induction false} LeadingDigitsSpec(s: string)
    ensures StartsWith(s, LeadingDigits(s))
    ensures |LeadingDigits(s)| < |s| ==> !IsDigit(s[|LeadingDigits(s)|])
    decreases |s|
  {
    if s != [] && IsDigit(s[0]) {
      LeadingDigitsSpec(s[1..]);
    }
  }

  /** The number a run of leading decimal digits denotes; `None` when the
      text does not start with a digit. */
  function ParseDigits(body: string): (r: Option<nat>)
    ensures r.None? <==> body == [] || !IsDigit(body[0])
  {
    var digits := LeadingDigits(body);
    if digits == [] then None else Some(DecimalValue(digits))
  }

  /** An optional sign, then the digits. */
  function ParseSigned(t: string): Option<int> {
    if t != [] && t[0] == '-' then
      match ParseDigits(t[1..])
      case None => None
      case Some(n) => Some(-(n as int))
    else if t != [] && t[0] == '+' then ParseDigits(t[1..])
    else ParseDigits(t)
  }

  /** `parseInt(s, 10)`: skip leading whitespace, read an optional sign, then
      as many decimal digits as follow; `None` stands for `NaN`, returned when
      no digit follows. A radix of 10 means a `0x` prefix is not special. */
  function ParseInt(s: string): Option<int> {
    ParseSigned(TrimStart(s))
  }

  /** The longest digit prefix of digits followed by a non-digit is those
      digits. */
  lemma {:induction false} LeadingDigitsOf(ds: string, rest: string)
    requires forall i :: 0 <= i < |ds| ==> IsDigit(ds[i])
    requires rest == [] || !IsDigit(rest[0])
    ensures LeadingDigits(ds + rest) == ds
    decreases |ds|
  {
    if ds == [] {
      assert ds + rest == rest;
    } else {
      assert (ds + rest)[1..] == ds[1..] + rest;
      LeadingDigitsOf(ds[1..], rest);
    }
  }

  /** A text that starts with something other than whitespace is its own
      `trimStart`. */
  lemma TrimStartNoLeadingSpace(s: string)
    requires s != [] && !IsJsWhitespace(s[0])
    ensures TrimStart(s) == s
  {
  }

  /** `parseInt` reads a run of digits up to the first non-digit. */
  lemma ParseIntDigits(ds: string, rest: string)
    requires ds != [] && forall i :: 0 <= i < |ds| ==> IsDigit(ds[i])
    requires rest == [] || !IsDigit(rest[0])
    ensures ParseInt(ds + rest) == Some(DecimalValue(ds))
  {
    var s := ds + rest;
    assert s[0] == ds[0];
    TrimStartNoLeadingSpace(s);
    LeadingDigitsOf(ds, rest);
    assert ParseDigits(s) == Some(DecimalValue(ds));
  }

  /** A minus sign negates the number the digits after it denote. */
  lemma ParseIntMinus(t: string)
    ensures ParseDigits(t).None? ==> ParseInt("-" + t).None?
    ensures ParseDigits(t).Some? ==> ParseInt("-" + t) == Some(-(ParseDigits(t).value as int))
  {
    var s := "-" + t;
    assert s[0] == '-' && s[1..] == t;
    TrimStartNoLeadingSpace(s);
  }

  /** `parseInt` reads `"42"` as 42. */
  lemma ParseIntExample42()
    ensures ParseInt("42") == Some(42)
  {
    assert TrimStart("42") == "42";
    assert LeadingDigits("42") == "42";
    assert DecimalValue("42") == 42;
    assert ParseSigned("42") == Some(42);
  }

  /** `parseInt` stops at the first non-digit: `"42abc"` is 42. */
  lemma ParseIntExample42abc()
    ensures ParseInt("42abc") == Some(42)
  {
    assert TrimStart("42abc") == "42abc";
    assert LeadingDigits("42abc") == "42";
    assert DecimalValue("42") == 42;
    assert ParseSigned("42abc") == Some(42);
  }

  /** `parseInt` reads `"0"` as 0 and `"-3"` as -3. */
  lemma ParseIntExampleZeroNegative()
    ensures ParseInt("0") == Some(0)
    ensures ParseInt("-3") == Some(-3)
  {
    var zero := "0";
    assert IsDigit(zero[0]) && !IsJsWhitespace(zero[0]);
    TrimStartNoLeadingSpace(zero);
    assert LeadingDigits(zero) == zero;
    assert DecimalValue(zero) == 0;
    assert ParseDigits(zero) == Some(0);
    var minus3 := "-3";
    assert minus3[0] == '-' && minus3[1..] == "3" && !IsJsWhitespace(minus3[0]);
    TrimStartNoLeadingSpace(minus3);
    assert LeadingDigits("3") == "3";
    assert DecimalValue("3") == 3;
    ParseIntMinus("3");
  }

  /** `parseInt` reads `"abc"` as `NaN`. */
  lemma ParseIntExampleNaN()
    ensures ParseInt("abc") == None
  {
    var s := "abc";
    assert !IsDigit(s[0]) && !IsJsWhitespace(s[0]) && s[0] != '-' && s[0] != '+';
    TrimStartNoLeadingSpace(s);
    assert ParseDigits(s) == None;
  }
}
