/** String helpers that the validators and formatters share.  Each function
    models one JavaScript idiom the source uses: a regular-expression replace
    that deletes a character class, String.prototype.trim, padStart, String(n)
    and parseInt. */
module Text {
  import opened Common

  predicate IsDigit(c: char)
  {
    '0' <= c <= '9'
  }

  predicate AllDigits(s: string)
  {
    forall i :: 0 <= i < |s| ==> IsDigit(s[i])
  }

  /** s.replace(/x/g, ''): every occurrence of x deleted. */
  function Remove(s: string, x: char): (r: string)
    ensures x !in r
    ensures |r| <= |s|
  {
    if s == [] then []
    else if s[0] == x then Remove(s[1..], x)
    else [s[0]] + Remove(s[1..], x)
  }

  /** s.replace(/[^\d]/g, ''): only the ASCII digits, in order. */
  function KeepDigits(s: string): (r: string)
    ensures AllDigits(r)
    ensures |r| <= |s|
  {
    if s == [] then []
    else if IsDigit(s[0]) then [s[0]] + KeepDigits(s[1..])
    else KeepDigits(s[1..])
  }

  /** s.replace(/[^\d-]/g, ''): only digits and hyphens, in order. */
  function KeepDigitsAndHyphens(s: string): (r: string)
    ensures forall i :: 0 <= i < |r| ==> IsDigit(r[i]) || r[i] == '-'
  {
    if s == [] then []
    else if IsDigit(s[0]) || s[0] == '-' then [s[0]] + KeepDigitsAndHyphens(s[1..])
    else KeepDigitsAndHyphens(s[1..])
  }

  /** Deleting the hyphens of a digits-and-hyphens string keeps exactly its digits. */
  lemma {:induction false} RemoveHyphensOfFiltered(s: string)
    ensures Remove(KeepDigitsAndHyphens(s), '-') == KeepDigits(s)
  {
    if s != [] {
      RemoveHyphensOfFiltered(s[1..]);
      if IsDigit(s[0]) {
        assert KeepDigitsAndHyphens(s) == [s[0]] + KeepDigitsAndHyphens(s[1..]);
        assert ([s[0]] + KeepDigitsAndHyphens(s[1..]))[1..] == KeepDigitsAndHyphens(s[1..]);
      } else if s[0] == '-' {
        assert KeepDigitsAndHyphens(s) == ['-'] + KeepDigitsAndHyphens(s[1..]);
        assert (['-'] + KeepDigitsAndHyphens(s[1..]))[1..] == KeepDigitsAndHyphens(s[1..]);
      }
    }
  }

  /** A string without hyphens is unchanged by deleting hyphens. */
  lemma {:induction false} RemoveAbsent(s: string, x: char)
    requires x !in s
    ensures Remove(s, x) == s
  {
    if s != [] {
      assert s[0] != x;
      RemoveAbsent(s[1..], x);
      assert s == [s[0]] + s[1..];
    }
  }

  lemma {:induction false} RemoveConcat(a: string, b: string, x: char)
    ensures Remove(a + b, x) == Remove(a, x) + Remove(b, x)
  {
    if a == [] {
      assert a + b == b;
    } else {
      assert (a + b)[0] == a[0];
      assert (a + b)[1..] == a[1..] + b;
      RemoveConcat(a[1..], b, x);
    }
  }

  lemma {:induction false} KeepDigitsConcat(a: string, b: string)
    ensures KeepDigits(a + b) == KeepDigits(a) + KeepDigits(b)
  {
    if a == [] {
      assert a + b == b;
    } else {
      assert (a + b)[0] == a[0];
      assert (a + b)[1..] == a[1..] + b;
      KeepDigitsConcat(a[1..], b);
    }
  }

  /** Deleting x from two strings joined by x deletes it from each. */
  lemma RemoveAround(a: string, b: string, x: char)
    ensures Remove(a + [x] + b, x) == Remove(a, x) + Remove(b, x)
  {
    RemoveConcat(a + [x], b, x);
    RemoveConcat(a, [x], x);
    assert Remove([x], x) == [];
  }

  /** Deleting the two '-' of three digit groups joined by '-' joins the
      groups. */
  lemma RemoveSeparators(a: string, b: string, c: string)
    requires AllDigits(a) && AllDigits(b) && AllDigits(c)
    ensures Remove(a + "-" + b + "-" + c, '-') == a + b + c
  {
    RemoveAround(a + "-" + b, c, '-');
    RemoveAround(a, b, '-');
    RemoveAbsent(a, '-');
    RemoveAbsent(b, '-');
    RemoveAbsent(c, '-');
  }

  /** The digits of two strings joined by '-' are the digits of each. */
  lemma KeepDigitsAround(a: string, b: string)
    ensures KeepDigits(a + "-" + b) == KeepDigits(a) + KeepDigits(b)
  {
    KeepDigitsConcat(a + "-", b);
    KeepDigitsConcat(a, "-");
    assert KeepDigits("-") == [];
  }

  /** The digits of an all-digit string are the string itself. */
  lemma {:induction false} KeepDigitsOfDigits(s: string)
    requires AllDigits(s)
    ensures KeepDigits(s) == s
  {
    if s != [] {
      KeepDigitsOfDigits(s[1..]);
      assert s == [s[0]] + s[1..];
    }
  }

  /** The white-space and line-terminator characters that trim() removes. */
  predicate IsJsWhitespace(c: char)
  {
    c == ' ' || c == '\t' || c == '\n' || c == '\r' || c == '\U{000B}' || c == '\U{000C}'
    || c == '\U{00A0}' || c == '\U{1680}' || ('\U{2000}' <= c <= '\U{200A}')
    || c == '\U{2028}' || c == '\U{2029}' || c == '\U{202F}' || c == '\U{205F}'
    || c == '\U{3000}' || c == '\U{FEFF}'
  }

  predicate IsBlank(s: string)
  {
    forall i :: 0 <= i < |s| ==> IsJsWhitespace(s[i])
  }

  function TrimStart(s: string): (r: string)
    ensures |r| <= |s|
    ensures r != [] ==> !IsJsWhitespace(r[0])
    ensures r == [] <==> IsBlank(s)
  {
    if s == [] then []
    else if IsJsWhitespace(s[0]) then TrimStart(s[1..])
    else s
  }

  function TrimEnd(s: string): (r: string)
    ensures |r| <= |s|
    ensures r != [] ==> !IsJsWhitespace(r[|r| - 1])
    ensures r == [] <==> IsBlank(s)
    ensures r != [] ==> !IsJsWhitespace(r[0]) || (s != [] && r[0] == s[0])
  {
    if s == [] then []
    else if IsJsWhitespace(s[|s| - 1]) then TrimEnd(s[..|s| - 1])
    else s
  }

  /** String.prototype.trim. */
  function Trim(s: string): (r: string)
  {
    TrimEnd(TrimStart(s))
  }

  /** trim() leaves nothing exactly when the string is all white space, and
      otherwise leaves a string that starts and ends with a visible character. */
  lemma TrimProperties(s: string)
    ensures Trim(s) == [] <==> IsBlank(s)
    ensures Trim(s) != [] ==> !IsJsWhitespace(Trim(s)[0]) && !IsJsWhitespace(Trim(s)[|Trim(s)| - 1])
  {
  }

  function DigitValue(c: char): (v: nat)
    requires IsDigit(c)
    ensures v < 10
  {
    c as int - '0' as int
  }

  function DigitChar(v: nat): (c: char)
    requires v < 10
    ensures IsDigit(c) && DigitValue(c) == v
  {
    ('0' as int + v) as char
  }

  /** The number an all-digit string denotes in decimal. */
  function DecimalValue(s: string): nat
    requires AllDigits(s)
  {
    if s == [] then 0
    else DecimalValue(s[..|s| - 1]) * 10 + DigitValue(s[|s| - 1])
  }

  /** String(n) for a natural number: its decimal digits without leading zeros. */
  function NatToDecimal(n: nat): (r: string)
    ensures AllDigits(r) && 1 <= |r|
    ensures DecimalValue(r) == n
    ensures |r| > 1 ==> r[0] != '0'
    ensures n < 10 ==> |r| == 1
    ensures n >= 10 ==> |r| >= 2
  {
    if n < 10 then [DigitChar(n)]
    else
      var prefix := NatToDecimal(n / 10);
      var r := prefix + [DigitChar(n % 10)];
      assert r[..|r| - 1] == prefix;
      r
  }

  /** Leading zeros do not change a decimal value. */
  lemma {:induction false} LeadingZeros(k: nat, s: string)
    requires AllDigits(s)
    ensures AllDigits(Repeat('0', k) + s)
    ensures DecimalValue(Repeat('0', k) + s) == DecimalValue(s)
  {
    var t := Repeat('0', k) + s;
    if s == [] {
      assert t == Repeat('0', k);
      ZerosValue(k);
    } else {
      var init := s[..|s| - 1];
      LeadingZeros(k, init);
      assert t[..|t| - 1] == Repeat('0', k) + init;
      assert t[|t| - 1] == s[|s| - 1];
    }
  }

  lemma {:induction false} ZerosValue(k: nat)
    ensures AllDigits(Repeat('0', k)) && DecimalValue(Repeat('0', k)) == 0
  {
    if k > 0 {
      ZerosValue(k - 1);
      assert Repeat('0', k)[..k - 1] == Repeat('0', k - 1);
    }
  }

  function Repeat(c: char, k: nat): (r: string)
    ensures |r| == k
    ensures forall i :: 0 <= i < k ==> r[i] == c
  {
    if k == 0 then [] else Repeat(c, k - 1) + [c]
  }

  /** s.padStart(width, c). */
  function PadStart(s: string, width: nat, c: char): (r: string)
    ensures |r| == if |s| >= width then |s| else width
    ensures r == Repeat(c, |r| - |s|) + s
  {
    if |s| >= width then
      assert Repeat(c, 0) + s == s;
      s
    else Repeat(c, width - |s|) + s
  }

  /** The longest prefix of s made of digits. */
  function LeadingDigits(s: string): (r: string)
    ensures AllDigits(r) && |r| <= |s| && r == s[..|r|]
    ensures |r| < |s| ==> !IsDigit(s[|r|])
  {
    if s == [] || !IsDigit(s[0]) then []
    else
      var rest := LeadingDigits(s[1..]);
      assert [s[0]] + rest == s[..|rest| + 1];
      [s[0]] + rest
  }

  predicate IsHexDigit(c: char)
  {
    IsDigit(c) || 'a' <= c <= 'f' || 'A' <= c <= 'F'
  }

  predicate AllHexDigits(s: string)
  {
    forall i :: 0 <= i < |s| ==> IsHexDigit(s[i])
  }

  function HexDigitValue(c: char): (v: nat)
    requires IsHexDigit(c)
    ensures v < 16
    ensures IsDigit(c) ==> v == DigitValue(c)
  {
    if IsDigit(c) then DigitValue(c)
    else if 'a' <= c <= 'f' then c as int - 'a' as int + 10
    else c as int - 'A' as int + 10
  }

  /** The number a string of hexadecimal digits denotes. */
  function HexValue(s: string): nat
    requires AllHexDigits(s)
  {
    if s == [] then 0
    else HexValue(s[..|s| - 1]) * 16 + HexDigitValue(s[|s| - 1])
  }

  /** The longest prefix of s made of hexadecimal digits. */
  function LeadingHexDigits(s: string): (r: string)
    ensures AllHexDigits(r) && |r| <= |s| && r == s[..|r|]
    ensures |r| < |s| ==> !IsHexDigit(s[|r|])
  {
    if s == [] || !IsHexDigit(s[0]) then []
    else
      var rest := LeadingHexDigits(s[1..]);
      assert [s[0]] + rest == s[..|rest| + 1];
      [s[0]] + rest
  }

  /** The sign parseInt reads after the white space: -1 after a '-', 1
      otherwise. */
  function SignOf(t: string): (sign: int)
    ensures sign == 1 || sign == -1
    ensures sign == -1 <==> (t != [] && t[0] == '-')
  {
    if t != [] && t[0] == '-' then -1 else 1
  }

  /** What follows the sign character, if there is one. */
  function Unsigned(t: string): (u: string)
    ensures t != [] && (t[0] == '-' || t[0] == '+') ==> u == t[1..]
    ensures t == [] || (t[0] != '-' && t[0] != '+') ==> u == t
  {
    if t != [] && (t[0] == '-' || t[0] == '+') then t[1..] else t
  }

  /** Without a radix, parseInt reads "0x" or "0X" as the mark of base 16. */
  predicate HexPrefixed(u: string)
  {
    |u| >= 2 && u[0] == '0' && (u[1] == 'x' || u[1] == 'X')
  }

  /** parseInt(s) with no radix: leading white space is skipped, a '+' or
      '-' is read as the sign, "0x" or "0X" after it switches to base 16, and
      the longest run of digits of the base that follows is the value; an
      empty run is NaN (None). */
  function ParseInt(s: string): (r: Option<int>)
    ensures var u := Unsigned(TrimStart(s));
      r.None? <==> (if HexPrefixed(u) then u[2..] == [] || !IsHexDigit(u[2])
                    else u == [] || !IsDigit(u[0]))
    ensures r.Some? && r.value < 0 ==> TrimStart(s)[0] == '-'
  {
    var t := TrimStart(s);
    var u := Unsigned(t);
    if HexPrefixed(u) then
      var digits := LeadingHexDigits(u[2..]);
      if digits == [] then None else Some(SignOf(t) * HexValue(digits))
    else
      var digits := LeadingDigits(u);
      if digits == [] then None else Some(SignOf(t) * DecimalValue(digits))
  }

  /** White space in front changes nothing trimStart returns. */
  lemma {:induction false} TrimStartBlankPrefix(w: string, s: string)
    requires IsBlank(w)
    ensures TrimStart(w + s) == TrimStart(s)
  {
    if w != [] {
      assert (w + s)[0] == w[0] && IsJsWhitespace(w[0]);
      assert (w + s)[1..] == w[1..] + s;
      TrimStartBlankPrefix(w[1..], s);
    } else {
      assert w + s == s;
    }
  }

  /** parseInt ignores white space in front of the number. */
  lemma ParseIntSkipsBlank(w: string, s: string)
    requires IsBlank(w)
    ensures ParseInt(w + s) == ParseInt(s)
  {
    TrimStartBlankPrefix(w, s);
  }

  /** The leading digit run of a digit string followed by a non-digit is
      that digit string. */
  lemma {:induction false} LeadingDigitsOfConcat(d: string, rest: string)
    requires AllDigits(d)
    requires rest == [] || !IsDigit(rest[0])
    ensures LeadingDigits(d + rest) == d
  {
    if d != [] {
      assert (d + rest)[1..] == d[1..] + rest;
      LeadingDigitsOfConcat(d[1..], rest);
    } else {
      assert d + rest == rest;
    }
  }

  /** parseInt reads an optional sign and a decimal digit run, and stops at
      the first character after it that is not a digit; a lone "0" followed
      by 'x' would switch to base 16 instead. */
  lemma ParseIntReadsDecimal(sign: string, d: string, rest: string)
    requires sign == "" || sign == "+" || sign == "-"
    requires AllDigits(d) && d != []
    requires rest == [] || !IsDigit(rest[0])
    requires !(d == "0" && rest != [] && (rest[0] == 'x' || rest[0] == 'X'))
    ensures ParseInt(sign + d + rest) == Some((if sign == "-" then -1 else 1) * DecimalValue(d))
  {
    var s := sign + d + rest;
    assert s[0] == '+' || s[0] == '-' || IsDigit(s[0]);
    assert TrimStart(s) == s;
    assert Unsigned(s) == d + rest by {
      if sign != "" {
        assert s[1..] == d + rest;
      } else {
        assert s == d + rest;
      }
    }
    assert !HexPrefixed(d + rest) by {
      if |d| >= 2 {
        assert (d + rest)[1] == d[1];
      }
    }
    LeadingDigitsOfConcat(d, rest);
  }

  /** String(n) for an integer: a '-' in front of a negative number's
      digits.  parseInt reads it back. */
  function IntToString(n: int): (r: string)
    ensures r != []
    ensures ParseInt(r) == Some(n)
  {
    if n < 0 then
      ParseIntReadsDecimal("-", NatToDecimal(-n), []);
      assert "-" + NatToDecimal(-n) + [] == "-" + NatToDecimal(-n);
      "-" + NatToDecimal(-n)
    else
      ParseIntReadsDecimal("", NatToDecimal(n), []);
      assert "" + NatToDecimal(n) + [] == NatToDecimal(n);
      NatToDecimal(n)
  }

  /** parseInt skips white space in front: " 7" reads as 7. */
  lemma ParseIntSpaceSeven()
    ensures ParseInt(" 7") == Some(7)
  {
    ParseIntSkipsBlank(" ", "7");
    assert " " + "7" == " 7";
    ParseIntReadsDecimal("", "7", []);
    assert "" + "7" + [] == "7";
  }

  /** parseInt reads a sign: "+7" is 7 and "-3" is -3. */
  lemma ParseIntSigned()
    ensures ParseInt("+7") == Some(7)
    ensures ParseInt("-3") == Some(-3)
  {
    ParseIntReadsDecimal("+", "7", []);
    assert "+" + "7" + [] == "+7";
    ParseIntReadsDecimal("-", "3", []);
    assert "-" + "3" + [] == "-3";
  }

  /** parseInt stops at the first non-digit: "12ab" is 12, while "ab12" is
      NaN. */
  lemma ParseIntStopsAtLetters()
    ensures ParseInt("12ab") == Some(12)
    ensures ParseInt("ab12") == None
  {
    ParseIntReadsDecimal("", "12", "ab");
    assert "" + "12" + "ab" == "12ab";
    assert DecimalValue("12") == 12 by {
      assert "12"[..1] == "1";
    }
    assert TrimStart("ab12") == "ab12";
  }

  /** Without a radix, "0x1A" is read in base 16 as 26, and "0x" alone is
      NaN. */
  lemma ParseIntHex()
    ensures ParseInt("0x1A") == Some(26)
    ensures ParseInt("0x") == None
  {
    assert TrimStart("0x1A") == "0x1A";
    assert "0x1A"[2..] == "1A";
    assert LeadingHexDigits("1A") == "1A" by {
      assert "1A"[1..] == "A";
      assert LeadingHexDigits("A") == "A" by {
        assert "A"[1..] == [];
      }
    }
    assert HexValue("1A") == 26 by {
      assert "1A"[..1] == "1";
    }
    assert TrimStart("0x") == "0x";
  }

  /** parseInt reads a whole non-empty digit string as its decimal value. */
  lemma ParseIntOfDigits(s: string)
    requires AllDigits(s) && s != []
    ensures ParseInt(s) == Some(DecimalValue(s))
  {
    ParseIntReadsDecimal("", s, []);
    assert "" + s + [] == s;
  }

  function Pow10(k: nat): (p: nat)
    ensures p >= 1
  {
    if k == 0 then 1 else 10 * Pow10(k - 1)
  }

  /** A string of k digits denotes a number below 10^k. */
  lemma {:induction false} DecimalBound(s: string)
    requires AllDigits(s)
    ensures DecimalValue(s) < Pow10(|s|)
  {
    if s != [] {
      DecimalBound(s[..|s| - 1]);
    }
  }

  /** String(n) of a number below 10^k has at most k digits. */
  lemma {:induction false} NatToDecimalLength(n: nat, k: nat)
    requires 1 <= k && n < Pow10(k)
    ensures |NatToDecimal(n)| <= k
  {
    if n >= 10 {
      NatToDecimalLength(n / 10, k - 1);
    }
  }

  /** Two digit strings of one length with one value are the same string. */
  lemma {:induction false} DecimalInjective(a: string, b: string)
    requires AllDigits(a) && AllDigits(b) && |a| == |b|
    requires DecimalValue(a) == DecimalValue(b)
    ensures a == b
  {
    if a != [] {
      var n := |a| - 1;
      var x, y := DecimalValue(a[..n]), DecimalValue(b[..n]);
      var da, db := DigitValue(a[n]), DigitValue(b[n]);
      var v := x * 10 + da;
      assert v == y * 10 + db;
      assert da == v % 10 && x == v / 10;
      assert db == v % 10 && y == v / 10;
      DecimalInjective(a[..n], b[..n]);
      assert a == a[..n] + [a[n]] && b == b[..n] + [b[n]];
    }
  }

  /** A digit string is String(its value) padded with '0' to its length:
      formatting a parsed field gives the field back. */
  lemma CanonicalPad(s: string)
    requires AllDigits(s) && 1 <= |s|
    ensures PadStart(NatToDecimal(DecimalValue(s)), |s|, '0') == s
  {
    var v := DecimalValue(s);
    var x := NatToDecimal(v);
    DecimalBound(s);
    NatToDecimalLength(v, |s|);
    var padded := PadStart(x, |s|, '0');
    LeadingZeros(|s| - |x|, x);
    DecimalInjective(padded, s);
  }

  /** Digit groups joined by '-': deleting the '-' and keeping the digits
      both give the groups back joined. */
  lemma TwoGroups(a: string, b: string)
    requires AllDigits(a) && AllDigits(b)
    ensures Remove(a + "-" + b, '-') == a + b
    ensures KeepDigits(a + "-" + b) == a + b
  {
    RemoveAround(a, b, '-');
    RemoveAbsent(a, '-');
    RemoveAbsent(b, '-');
    KeepDigitsAround(a, b);
    KeepDigitsOfDigits(a);
    KeepDigitsOfDigits(b);
  }

  lemma ThreeGroups(a: string, b: string, c: string)
    requires AllDigits(a) && AllDigits(b) && AllDigits(c)
    ensures Remove(a + "-" + b + "-" + c, '-') == a + b + c
    ensures KeepDigits(a + "-" + b + "-" + c) == a + b + c
  {
    TwoGroups(a, b);
    RemoveSeparators(a, b, c);
    KeepDigitsAround(a + "-" + b, c);
    KeepDigitsOfDigits(c);
  }
}
