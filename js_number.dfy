/** JavaScript's global `parseInt` (ECMA-262, section 19.2.5, "parseInt (
    string, radix )") over Dafny strings, with radix 10 (`ParseInt`) and
    with no radix (`ParseIntAutoRadix`). A result of `NaN` is `None`.
    `DecimalString` is the inverse direction: the canonical decimal text of
    an integer, used to state what `ParseInt` reads. */
module JsNumber {
  import opened Basics

  /** The code points that StrWhiteSpaceChar admits: WhiteSpace
      (ECMA-262, section 12.2: TAB, VT, FF, ZWNBSP and the Unicode space
      separators) and LineTerminator (section 12.3: LF, CR, LS, PS). */
  predicate IsWhiteSpace(c: char)
  {
    var n := c as int;
    n == 0x09 || n == 0x0A || n == 0x0B || n == 0x0C || n == 0x0D
    || n == 0x20 || n == 0xA0 || n == 0x1680 || (0x2000 <= n <= 0x200A)
    || n == 0x2028 || n == 0x2029 || n == 0x202F || n == 0x205F
    || n == 0x3000 || n == 0xFEFF
  }

  predicate IsDigit(c: char)
  {
    '0' <= c <= '9'
  }

  predicate AllDigits(s: string)
  {
    forall i :: 0 <= i < |s| ==> IsDigit(s[i])
  }

  function DigitValue(c: char): int
  {
    c as int - '0' as int
  }

  function DigitChar(d: nat): (c: char)
    requires d < 10
    ensures IsDigit(c) && DigitValue(c) == d
  {
    ('0' as int + d) as char
  }

  /** The string with its leading white space removed. */
  function TrimStart(s: string): (t: string)
    ensures |t| <= |s| && t == s[|s| - |t|..]
    ensures t == [] || !IsWhiteSpace(t[0])
  {
    if s != [] && IsWhiteSpace(s[0]) then TrimStart(s[1..]) else s
  }

  /** What `TrimStart` drops is white space, and nothing else. */
  lemma {:induction false} TrimStartDropsWhiteSpace(s: string)
    ensures forall i :: 0 <= i < |s| - |TrimStart(s)| ==> IsWhiteSpace(s[i])
  {
    if s != [] && IsWhiteSpace(s[0]) {
      TrimStartDropsWhiteSpace(s[1..]);
    }
  }

  /** The text after one leading sign character, if there is one. */
  function Unsigned(t: string): string
  {
    if t != [] && (t[0] == '-' || t[0] == '+') then t[1..] else t
  }

  /** The run of decimal digits at the start of `u`, read left to right
      onto `acc`; reading stops at the first character that is not a digit. */
  function ReadDigits(u: string, acc: int): int
  {
    if u != [] && IsDigit(u[0]) then ReadDigits(u[1..], 10 * acc + DigitValue(u[0])) else acc
  }

  /** The value of the digit run at the start of `u`, or `None` if `u`
      does not start with a digit. */
  function LeadingDigits(u: string): Option<int>
  {
    if u != [] && IsDigit(u[0]) then Some(ReadDigits(u, 0)) else None
  }

  /** `parseInt` after the white space is skipped: an optional sign, then
      the digit run; no digits at all gives `NaN`. */
  function ParseTrimmed(t: string): Option<int>
  {
    match LeadingDigits(Unsigned(t))
    case None => None
    case Some(v) =>
      Some(if t[0] == '-' then -v else v)
  }

  /** `parseInt(s, 10)`: skip white space, take an optional sign, then read
      the longest run of decimal digits; no digits at all gives `NaN`. */
  function ParseInt(s: string): (r: Option<int>)
    ensures r.Some? <==> Unsigned(TrimStart(s)) != [] && IsDigit(Unsigned(TrimStart(s))[0])
  {
    ParseTrimmed(TrimStart(s))
  }

  predicate IsHexDigit(c: char)
  {
    IsDigit(c) || 'a' <= c <= 'f' || 'A' <= c <= 'F'
  }

  function HexDigitValue(c: char): int
  {
    if IsDigit(c) then DigitValue(c)
    else if 'a' <= c <= 'f' then c as int - 'a' as int + 10
    else c as int - 'A' as int + 10
  }

  predicate AllHexDigits(s: string)
  {
    forall i :: 0 <= i < |s| ==> IsHexDigit(s[i])
  }

  /** The run of hexadecimal digits at the start of `u`, read left to right
      onto `acc`. */
  function ReadHexDigits(u: string, acc: int): int
  {
    if u != [] && IsHexDigit(u[0]) then ReadHexDigits(u[1..], 16 * acc + HexDigitValue(u[0])) else acc
  }

  function LeadingHexDigits(u: string): Option<int>
  {
    if u != [] && IsHexDigit(u[0]) then Some(ReadHexDigits(u, 0)) else None
  }

  /** The text starts with the prefix "0x" or "0X". */
  predicate HasHexPrefix(u: string)
  {
    |u| >= 2 && u[0] == '0' && (u[1] == 'x' || u[1] == 'X')
  }

  /** `parseInt` with no radix after the white space is skipped: after the
      sign, a "0x" or "0X" prefix switches to hexadecimal digits. */
  function ParseAutoRadixTrimmed(t: string): Option<int>
  {
    var u := Unsigned(t);
    match (if HasHexPrefix(u) then LeadingHexDigits(u[2..]) else LeadingDigits(u))
    case None => None
    case Some(v) =>
      Some(if t[0] == '-' then -v else v)
  }

  /** `parseInt(s)` with no radix: as with radix 10, except that text whose
      digits start with "0x" or "0X" is read in hexadecimal after that
      prefix, and is `NaN` when no hexadecimal digit follows it. */
  function ParseIntAutoRadix(s: string): (r: Option<int>)
    ensures !HasHexPrefix(Unsigned(TrimStart(s))) ==> r == ParseInt(s)
    ensures r.Some? ==> ParseInt(s).Some?
  {
    ParseAutoRadixTrimmed(TrimStart(s))
  }

  /** Radix 10 stops at the "x" of a "0x" prefix and reads 0. */
  lemma ParseIntOfHexPrefix(s: string)
    requires HasHexPrefix(Unsigned(TrimStart(s)))
    ensures ParseInt(s) == Some(0)
  {
    var u := Unsigned(TrimStart(s));
    assert ReadDigits(u, 0) == ReadDigits(u[1..], 0) == 0;
  }

  /** Where radix 10 reads a number other than 0, `parseInt` with no radix
      reads the same number. */
  lemma ParseIntAutoRadixAgreesOnNonZero(s: string)
    requires ParseInt(s).Some? && ParseInt(s).value != 0
    ensures ParseIntAutoRadix(s) == ParseInt(s)
  {
    if HasHexPrefix(Unsigned(TrimStart(s))) {
      ParseIntOfHexPrefix(s);
      assert false;
    }
  }

  /** The canonical decimal digits of a natural number: no leading zeros. */
  function NatString(n: nat): (s: string)
    ensures s != []
  {
    if n < 10 then [DigitChar(n)] else NatString(n / 10) + [DigitChar(n % 10)]
  }

  /** `NatString` writes digits only, with no leading zero. */
  lemma {:induction false} NatStringDigits(n: nat)
    ensures AllDigits(NatString(n))
    ensures NatString(n)[0] == '0' ==> n == 0
  {
    if n >= 10 {
      NatStringDigits(n / 10);
      assert NatString(n)[0] == NatString(n / 10)[0];
    }
  }

  /** The canonical decimal text of an integer, with `-` for negatives. */
  function DecimalString(n: int): string
  {
    if n < 0 then "-" + NatString(-n) else NatString(n)
  }

  /** Reading one more digit shifts the value read so far by one place. */
  lemma {:induction false} ReadDigitsSnoc(d: string, c: char, acc: int)
    requires AllDigits(d) && IsDigit(c)
    ensures ReadDigits(d + [c], acc) == 10 * ReadDigits(d, acc) + DigitValue(c)
  {
    if d == [] {
      assert [] + [c] == [c];
    } else {
      assert (d + [c])[1..] == d[1..] + [c];
      ReadDigitsSnoc(d[1..], c, 10 * acc + DigitValue(d[0]));
    }
  }

  /** Reading the digits of `NatString(n)` gives back `n`. */
  lemma {:induction false} NatStringValue(n: nat)
    ensures ReadDigits(NatString(n), 0) == n
  {
    if n >= 10 {
      NatStringDigits(n / 10);
      ReadDigitsSnoc(NatString(n / 10), DigitChar(n % 10), 0);
      NatStringValue(n / 10);
    }
  }

  /** Reading stops at the end of the digit run: "12abc" reads as "12". */
  lemma {:induction false} ReadDigitsStopsAtNonDigit(d: string, rest: string, acc: int)
    requires AllDigits(d)
    requires rest == [] || !IsDigit(rest[0])
    ensures ReadDigits(d + rest, acc) == ReadDigits(d, acc)
  {
    if d == [] {
      assert [] + rest == rest;
    } else {
      assert (d + rest)[1..] == d[1..] + rest;
      ReadDigitsStopsAtNonDigit(d[1..], rest, 10 * acc + DigitValue(d[0]));
    }
  }

  /** The digit run at the start of `NatString(m) + rest` is worth `m`. */
  lemma {:induction false} LeadingDigitsOfDecimal(m: nat, rest: string)
    requires rest == [] || !IsDigit(rest[0])
    ensures LeadingDigits(NatString(m) + rest) == Some(m)
  {
    var d := NatString(m);
    NatStringDigits(m);
    ReadDigitsStopsAtNonDigit(d, rest, 0);
    NatStringValue(m);
    assert (d + rest)[0] == d[0];
  }

  /** `parseInt` reads back the decimal text of any integer, and ignores
      whatever follows it from the first non-digit on ("12abc" reads as 12). */
  lemma {:induction false} ParseIntReadsDecimal(n: int, rest: string)
    requires rest == [] || !IsDigit(rest[0])
    ensures ParseInt(DecimalString(n) + rest) == Some(n)
  {
    var m: nat := if n < 0 then -n else n;
    var sign := if n < 0 then "-" else "";
    DecimalStringSplits(n, rest);
    LeadingDigitsOfDecimal(m, rest);
    ParseIntOfSignedRun(sign, NatString(m) + rest, m);
  }

  /** The decimal text of `n` is its sign followed by its magnitude's digits. */
  lemma {:induction false} DecimalStringSplits(n: int, rest: string)
    ensures DecimalString(n) + rest
         == (if n < 0 then "-" else "") + (NatString(if n < 0 then -n else n) + rest)
  {
    if n >= 0 {
      assert "" + (NatString(n) + rest) == NatString(n) + rest;
    }
  }

  /** `parseInt` of a digit run with an optional leading minus sign. */
  lemma {:induction false} ParseIntOfSignedRun(sign: string, u: string, m: int)
    requires sign == "-" || sign == ""
    requires LeadingDigits(u) == Some(m)
    ensures ParseInt(sign + u) == Some(if sign == "-" then -m else m)
  {
    assert IsDigit(u[0]);
    SignedRunIsTrimmed(sign, u);
  }

  /** Text that starts with a minus sign or a digit has no white space to
      skip, and its sign, if any, is the minus. */
  lemma {:induction false} SignedRunIsTrimmed(sign: string, u: string)
    requires sign == "-" || sign == ""
    requires u != [] && IsDigit(u[0])
    ensures TrimStart(sign + u) == sign + u
    ensures Unsigned(sign + u) == u
    ensures (sign + u)[0] == '-' <==> sign == "-"
  {
    var s := sign + u;
    if sign == "-" {
      assert s[0] == '-' && s[1..] == u;
    } else {
      assert s == u;
      assert s[0] != '-' && s[0] != '+';
    }
    assert !IsWhiteSpace(s[0]);
  }

  /** Skipping white space in front of `s` gives what skipping in `s` does. */
  lemma {:induction false} TrimStartSkips(ws: string, s: string)
    requires forall i :: 0 <= i < |ws| ==> IsWhiteSpace(ws[i])
    ensures TrimStart(ws + s) == TrimStart(s)
  {
    if ws != [] {
      var w := ws + s;
      assert w[0] == ws[0] && IsWhiteSpace(w[0]);
      assert TrimStart(w) == TrimStart(w[1..]);
      assert w[1..] == ws[1..] + s;
      TrimStartSkips(ws[1..], s);
    } else {
      assert ws + s == s;
    }
  }

  /** Leading white space does not change what `parseInt` reads. */
  lemma {:induction false} ParseIntSkipsWhiteSpace(ws: string, s: string)
    requires forall i :: 0 <= i < |ws| ==> IsWhiteSpace(ws[i])
    ensures ParseInt(ws + s) == ParseInt(s)
  {
    TrimStartSkips(ws, s);
  }

  /** A string without any decimal digit is `NaN` ("", "abc", " - "). */
  lemma {:induction false} ParseIntWithoutDigits(s: string)
    requires forall i :: 0 <= i < |s| ==> !IsDigit(s[i])
    ensures ParseInt(s) == None
  {
  }

  /** Reading stops at the end of the hexadecimal digit run. */
  lemma {:induction false} ReadHexDigitsStopsAtNonDigit(d: string, rest: string, acc: int)
    requires AllHexDigits(d)
    requires rest == [] || !IsHexDigit(rest[0])
    ensures ReadHexDigits(d + rest, acc) == ReadHexDigits(d, acc)
  {
    if d == [] {
      assert [] + rest == rest;
    } else {
      assert (d + rest)[1..] == d[1..] + rest;
      ReadHexDigitsStopsAtNonDigit(d[1..], rest, 16 * acc + HexDigitValue(d[0]));
    }
  }

  /** Each further hexadecimal digit shifts the value read so far by one
      place of sixteen. */
  lemma {:induction false} ReadHexDigitsSnoc(d: string, c: char, acc: int)
    requires AllHexDigits(d) && IsHexDigit(c)
    ensures ReadHexDigits(d + [c], acc) == 16 * ReadHexDigits(d, acc) + HexDigitValue(c)
  {
    if d == [] {
      assert [] + [c] == [c];
    } else {
      assert (d + [c])[1..] == d[1..] + [c];
      ReadHexDigitsSnoc(d[1..], c, 16 * acc + HexDigitValue(d[0]));
    }
  }

  /** Without a radix, `parseInt` reads a signed "0x"/"0X" number in
      hexadecimal and ignores whatever follows its digits ("0x1E" is 30). */
  lemma {:induction false} ParseIntAutoRadixReadsHex(sign: string, prefix: string, d: string, rest: string)
    requires sign == "-" || sign == ""
    requires prefix == "0x" || prefix == "0X"
    requires d != [] && AllHexDigits(d)
    requires rest == [] || !IsHexDigit(rest[0])
    ensures var v := ReadHexDigits(d, 0);
      ParseIntAutoRadix(sign + (prefix + (d + rest))) == Some(if sign == "-" then -v else v)
  {
    var u := prefix + (d + rest);
    assert u[0] == '0' && u[1] == prefix[1];
    SignedRunIsTrimmed(sign, u);
    assert u[2..] == d + rest;
    ReadHexDigitsStopsAtNonDigit(d, rest, 0);
    assert (d + rest)[0] == d[0];
    assert HasHexPrefix(u) && LeadingHexDigits(d + rest) == Some(ReadHexDigits(d, 0));
  }

  /** A "0x" prefix with no hexadecimal digit after it is `NaN` without a
      radix. */
  lemma {:induction false} HexPrefixWithoutDigits(sign: string, prefix: string, rest: string)
    requires sign == "-" || sign == ""
    requires prefix == "0x" || prefix == "0X"
    requires rest == [] || !IsHexDigit(rest[0])
    ensures ParseIntAutoRadix(sign + (prefix + rest)) == None
  {
    var u := prefix + rest;
    assert u[0] == '0' && u[1] == prefix[1];
    SignedRunIsTrimmed(sign, u);
    assert u[2..] == rest;
    assert HasHexPrefix(u) && LeadingHexDigits(rest) == None;
    assert ParseAutoRadixTrimmed(sign + u) == None;
  }

  /** With radix 10, a "0x" prefix reads as 0, whatever follows it. */
  lemma {:induction false} DecimalReadsHexPrefixAsZero(sign: string, prefix: string, rest: string)
    requires sign == "-" || sign == ""
    requires prefix == "0x" || prefix == "0X"
    ensures ParseInt(sign + (prefix + rest)) == Some(0)
  {
    var u := prefix + rest;
    assert u[0] == '0' && u[1] == prefix[1];
    SignedRunIsTrimmed(sign, u);
    ParseIntOfHexPrefix(sign + u);
  }

  /** Without a radix, `parseInt` reads the decimal text of any integer like
      radix 10 does, provided no "x" follows a lone "0". */
  lemma {:induction false} ParseIntAutoRadixReadsDecimal(n: int, rest: string)
    requires rest == [] || (!IsDigit(rest[0]) && (n != 0 || (rest[0] != 'x' && rest[0] != 'X')))
    ensures ParseIntAutoRadix(DecimalString(n) + rest) == Some(n)
  {
    var m: nat := if n < 0 then -n else n;
    var sign := if n < 0 then "-" else "";
    var w := NatString(m) + rest;
    ParseIntReadsDecimal(n, rest);
    DecimalStringSplits(n, rest);
    assert IsDigit(w[0]) by {
      NatStringDigits(m);
      assert w[0] == NatString(m)[0];
    }
    SignedRunIsTrimmed(sign, w);
    DecimalHasNoHexPrefix(m, rest);
  }

  /** A natural number's digits do not start with "0x": a positive number's
      first digit is not 0, and 0 is followed by anything but an "x". */
  lemma DecimalHasNoHexPrefix(m: nat, rest: string)
    requires rest == [] || (!IsDigit(rest[0]) && (m != 0 || (rest[0] != 'x' && rest[0] != 'X')))
    ensures !HasHexPrefix(NatString(m) + rest)
  {
    var w := NatString(m) + rest;
    NatStringDigits(m);
    assert w[0] == NatString(m)[0];
    if |w| >= 2 && m == 0 {
      assert NatString(m) == "0";
      assert w[1] == rest[0];
    }
  }
}
