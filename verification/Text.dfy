/** Character, search, number and line helpers (sipwsUtil.cpp and the std::string searches the
    source leans on).  Searches return -1 where the source converts npos to int. */
module Text {
  import opened Wrappers

  const INT_LIMIT := 0x8000_0000
  const U64_LIMIT := 0x1_0000_0000_0000_0000

  type Int32 = x: int | -0x8000_0000 <= x < 0x8000_0000
  type Int64 = x: int | -0x8000_0000_0000_0000 <= x < 0x8000_0000_0000_0000
  type Port = x: int | 0 <= x < 0x1_0000
  type Byte = x: int | 0 <= x < 0x100

  /** Conversion to a 32-bit int, which keeps the low 32 bits. */
  function ToInt32(x: int): Int32 {
    (x + INT_LIMIT) % 0x1_0000_0000 - INT_LIMIT
  }

  // ---------------------------------------------------------------- characters

  predicate IsDigit(c: char) {
    '0' <= c <= '9'
  }

  predicate IsAlnum(c: char) {
    IsDigit(c) || 'a' <= c <= 'z' || 'A' <= c <= 'Z'
  }

  predicate IsSpace(c: char) {
    c == ' ' || '\t' <= c <= '\r'
  }

  predicate IsHostChar(c: char) {
    IsAlnum(c) || c == '.'
  }

  function ToLower(c: char): char {
    if 'A' <= c <= 'Z' then (c as int + 32) as char else c
  }

  function ToUpper(c: char): char {
    if 'a' <= c <= 'z' then (c as int - 32) as char else c
  }

  function Lower(s: string): (r: string) {
    seq(|s|, i requires 0 <= i < |s| => ToLower(s[i]))
  }

  function Upper(s: string): (r: string) {
    seq(|s|, i requires 0 <= i < |s| => ToUpper(s[i]))
  }

  predicate EqualsIgnoreCase(a: string, b: string) {
    |a| == |b| && forall i :: 0 <= i < |a| ==> ToLower(a[i]) == ToLower(b[i])
  }

  lemma SameUpToCase(a: string, b: string)
    ensures EqualsIgnoreCase(a, b) <==> Lower(a) == Lower(b)
  {
    assert forall i :: 0 <= i < |a| ==> Lower(a)[i] == ToLower(a[i]);
    assert forall i :: 0 <= i < |b| ==> Lower(b)[i] == ToLower(b[i]);
    if Lower(a) == Lower(b) {
      assert |a| == |Lower(a)| == |b|;
    }
  }

  /** The comparison loop of the source. */
  method CompareIgnoreCase(a: string, b: string) returns (same: bool)
    ensures same == EqualsIgnoreCase(a, b)
  {
    if |a| != |b| {
      return false;
    }
    for i := 0 to |a|
      invariant forall j :: 0 <= j < i ==> ToLower(a[j]) == ToLower(b[j])
    {
      if ToLower(a[i]) != ToLower(b[i]) {
        return false;
      }
    }
    return true;
  }

  // ---------------------------------------------------------------- searches

  /** First position of `c` at or after `start`. */
  function IndexOf(s: string, c: char, start: nat): (r: int)
    ensures r == -1 ==> forall i :: start <= i < |s| ==> s[i] != c
    ensures r != -1 ==> start <= r < |s| && s[r] == c && forall i :: start <= i < r ==> s[i] != c
    decreases |s| - start
  {
    if start >= |s| then -1
    else if s[start] == c then start
    else IndexOf(s, c, start + 1)
  }

  predicate OccursAt(s: string, t: string, i: nat) {
    i + |t| <= |s| && s[i..i + |t|] == t
  }

  /** First position of the text `t` at or after `start`. */
  function Find(s: string, t: string, start: nat): (r: int)
    ensures r == -1 ==> forall i: nat :: start <= i ==> !OccursAt(s, t, i)
    ensures r != -1 ==> start <= r && OccursAt(s, t, r) && forall i: nat :: start <= i < r ==> !OccursAt(s, t, i)
    decreases |s| - start
  {
    if start > |s| then -1
    else if OccursAt(s, t, start) then start
    else Find(s, t, start + 1)
  }

  predicate Contains(s: string, t: string) {
    Find(s, t, 0) != -1
  }

  /** The suffix test of the source: `rfind` against a length difference taken modulo 2^64.  A string
      exactly one shorter than the suffix passes, because both sides are then npos. */
  predicate EndsWith(s: string, t: string) {
    if |s| < |t| then |s| + 1 == |t| else s[|s| - |t|..] == t
  }

  predicate Free(s: string, c: char) {
    forall i :: 0 <= i < |s| ==> s[i] != c
  }

  predicate AllHostChars(s: string) {
    forall i :: 0 <= i < |s| ==> IsHostChar(s[i])
  }

  /** A position with nothing before it is the one found. */
  lemma IndexOfIs(s: string, c: char, start: nat, r: nat)
    requires start <= r < |s| && s[r] == c && Free(s[start..r], c)
    ensures IndexOf(s, c, start) == r
  {
    hide IndexOf;
    assert forall i :: start <= i < r ==> s[i] == s[start..r][i - start];
  }

  lemma IndexOfFirst(s: string, c: char, start: nat, r: nat)
    requires start <= r < |s| && s[r] == c && forall i :: start <= i < r ==> s[i] != c
    ensures IndexOf(s, c, start) == r
  {
    hide IndexOf;
  }

  lemma FreeConcat(a: string, b: string, c: char)
    ensures Free(a + b, c) <==> Free(a, c) && Free(b, c)
  {
    if Free(a + b, c) {
      forall i | 0 <= i < |a| ensures a[i] != c { assert (a + b)[i] == a[i]; }
      forall i | 0 <= i < |b| ensures b[i] != c { assert (a + b)[|a| + i] == b[i]; }
    }
  }

  // ---------------------------------------------------------------- trimming

  function TrimLeft(s: string): (r: string)
    ensures |r| <= |s|
  {
    if s != "" && IsSpace(s[0]) then TrimLeft(s[1..]) else s
  }

  function TrimRight(s: string): (r: string)
    ensures |r| <= |s| && r == s[..|r|]
  {
    if s != "" && IsSpace(s[|s| - 1]) then TrimRight(s[..|s| - 1]) else s
  }

  function Trim(s: string): string {
    TrimLeft(TrimRight(s))
  }

  /** Drops the first and the last character when the first one is a double quote.  A lone quote
      throws: after the first erase the second one is out of range. */
  function TrimDoubleQuotes(s: string): Outcome<string> {
    if s == "" || s[0] != '"' then Returned(s)
    else if |s| == 1 then Threw
    else Returned(s[1..|s| - 1])
  }

  lemma {:induction false} TrimLeftIsTail(s: string)
    ensures TrimLeft(s) == s[|s| - |TrimLeft(s)|..]
  {
    if s != "" && IsSpace(s[0]) {
      TrimLeftIsTail(s[1..]);
    }
  }

  lemma TrimFree(s: string, c: char)
    requires Free(s, c)
    ensures Free(Trim(s), c)
  {
    TrimLeftIsTail(TrimRight(s));
  }

  lemma TrimTight(s: string)
    requires s != "" && !IsSpace(s[0]) && !IsSpace(s[|s| - 1])
    ensures Trim(s) == s && Trim(" " + s) == s
  {
    assert (" " + s)[1..] == s;
  }

  /** Nothing but the six white characters of the C locale. */
  predicate Blank(s: string) {
    forall i :: 0 <= i < |s| ==> s[i] == ' ' || 9 <= s[i] as int <= 13
  }

  /** White space around a text that has none at its ends is trimmed off, whatever there is of it. */
  lemma TrimBlanks(a: string, s: string, b: string)
    requires Blank(a) && Blank(b) && s != "" && !IsSpace(s[0]) && !IsSpace(s[|s| - 1])
    ensures Trim(a + s + b) == s && TrimLeft(a + s + b) == s + b
  {
    hide TrimLeft, TrimRight;
    TrimRightBlanks(a + s, b);
    TrimLeftBlanks(a, s);
    assert a + s + b == a + (s + b);
    TrimLeftBlanks(a, s + b);
  }

  lemma {:induction false} TrimLeftBlanks(a: string, s: string)
    requires Blank(a) && s != "" && !IsSpace(s[0])
    ensures TrimLeft(a + s) == s
    decreases |a|
  {
    if a == "" {
      assert a + s == s;
    } else {
      assert (a + s)[1..] == a[1..] + s;
      TrimLeftBlanks(a[1..], s);
    }
  }

  lemma {:induction false} TrimRightBlanks(s: string, b: string)
    requires Blank(b) && s != "" && !IsSpace(s[|s| - 1])
    ensures TrimRight(s + b) == s
    decreases |b|
  {
    if b == "" {
      assert s + b == s;
    } else {
      var n := |b| - 1;
      assert (s + b)[..|s + b| - 1] == s + b[..n];
      TrimRightBlanks(s, b[..n]);
    }
  }

  // ---------------------------------------------------------------- numbers

  function DigitChar(d: nat): (c: char)
    requires d < 16
    ensures DigitValue(c) == d && c != ',' && c != '"' && !IsSpace(c) && c != '-' && c != '+' && c != 'x'
    ensures d < 10 ==> IsDigit(c)
  {
    if d < 10 then (d + '0' as int) as char else (d - 10 + 'a' as int) as char
  }

  /** Value of a digit, 99 for anything else. */
  function DigitValue(c: char): nat {
    if '0' <= c <= '9' then (c as int) - ('0' as int)
    else if 'a' <= c <= 'f' then (c as int) - ('a' as int) + 10
    else if 'A' <= c <= 'F' then (c as int) - ('A' as int) + 10
    else 99
  }

  predicate Numeral(s: string, base: nat) {
    forall i :: 0 <= i < |s| ==> DigitValue(s[i]) < base
  }

  /** A lower-case hexadecimal digit. */
  predicate IsHexChar(c: char) {
    DigitValue(c) < 16 && c == DigitChar(DigitValue(c))
  }

  predicate AllHexChars(s: string) {
    forall i :: 0 <= i < |s| ==> IsHexChar(s[i])
  }

  lemma PlainDigit(c: char)
    requires IsHexChar(c)
    ensures !IsSpace(c) && c != '-' && c != '+' && c != ',' && c != ':' && c != '"' && c != 'x' && c != 'X'
  {
  }

  lemma PlainDigits(s: string)
    requires AllHexChars(s)
    ensures Free(s, ',') && Free(s, ':') && Free(s, '"')
  {
    hide IsHexChar;
    forall i | 0 <= i < |s| ensures s[i] != ',' && s[i] != ':' && s[i] != '"' {
      PlainDigit(s[i]);
    }
  }

  function Digits(n: nat, base: nat): (s: string)
    requires base == 10 || base == 16
    ensures s != "" && Numeral(s, base) && AllHexChars(s)
  {
    if n < base then [DigitChar(n)]
    else if base == 10 then Digits(n / 10, 10) + [DigitChar(n % 10)]
    else Digits(n / 16, 16) + [DigitChar(n % 16)]
  }

  function NumeralValue(s: string, base: nat): nat
    requires base == 10 || base == 16
    requires Numeral(s, base)
  {
    if s == "" then 0
    else
      var v: int := NumeralValue(s[..|s| - 1], base);
      (if base == 10 then 10 * v else 16 * v) + DigitValue(s[|s| - 1])
  }

  /** The longest prefix made of digits. */
  function NumeralPrefix(s: string, base: nat): (r: string)
    ensures Numeral(r, base)
  {
    if s != "" && DigitValue(s[0]) < base then [s[0]] + NumeralPrefix(s[1..], base) else ""
  }

  lemma {:induction false} DigitsValue(n: nat, base: nat)
    requires base == 10 || base == 16
    ensures NumeralValue(Digits(n, base), base) == n
  {
    if n >= base {
      var rest: nat := if base == 10 then n / 10 else n / 16;
      DigitsValue(rest, base);
      var s := Digits(n, base);
      assert s[..|s| - 1] == Digits(rest, base);
    }
  }

  lemma {:induction false} PrefixOfNumeral(s: string, base: nat)
    requires Numeral(s, base)
    ensures NumeralPrefix(s, base) == s
  {
    if s != "" {
      PrefixOfNumeral(s[1..], base);
    }
  }

  /** int2Dec. */
  function Dec(n: int): string {
    if n < 0 then "-" + Digits(-n, 10) else Digits(n, 10)
  }

  /** stoi with a default: leading white space, one sign, the longest run of digits; anything that
      has no digits or does not fit an int yields the default. */
  function ParseInt(s: string, default: Int32): Int32 {
    var t := TrimLeft(s);
    var signed := t != "" && (t[0] == '-' || t[0] == '+');
    var digits := NumeralPrefix(if signed then t[1..] else t, 10);
    if digits == "" then default
    else
      var v: int := NumeralValue(digits, 10);
      var w: int := if signed && t[0] == '-' then -v else v;
      if -INT_LIMIT <= w < INT_LIMIT then w else default
  }

  /** A number is read from behind white space and up to the first character that is no digit; one that does not fit
      an int yields the default, and so does a text without a number. */
  lemma IntReads(blanks: string, n: int, behind: string, default: Int32)
    requires Blank(blanks) && (behind == "" || !IsDigit(behind[0]))
    ensures ParseInt(blanks + (Dec(n) + behind), default) == if -INT_LIMIT <= n < INT_LIMIT then n else default
    ensures n >= 0 ==> ParseInt(blanks + ("+" + Dec(n) + behind), default) == if n < INT_LIMIT then n else default
    ensures ParseInt(blanks, default) == default
    ensures behind != "" && !IsSpace(behind[0]) && behind[0] != '-' && behind[0] != '+' ==>
              ParseInt(blanks + behind, default) == default
  {
    hide ParseInt, Dec;
    DecReads(n, behind, default);
    BehindBlanks(blanks, Dec(n) + behind, default);
    if n >= 0 {
      PlusReads(n, behind, default);
      BehindBlanks(blanks, "+" + Dec(n) + behind, default);
    }
    NothingReads(blanks, behind, default);
  }

  lemma DecReads(n: int, behind: string, default: Int32)
    requires behind == "" || !IsDigit(behind[0])
    ensures var text := Dec(n) + behind;
            text != "" && !IsSpace(text[0]) &&
            ParseInt(text, default) == if -INT_LIMIT <= n < INT_LIMIT then n else default
  {
    hide ParseInt, Digits;
    var sign, size: nat := if n < 0 then "-" else "", if n < 0 then -n else n;
    PlainDigit(Digits(size, 10)[0]);
    NumberReads(sign, size, behind, default);
    assert Dec(n) == sign + Digits(size, 10);
  }

  lemma PlusReads(n: nat, behind: string, default: Int32)
    requires behind == "" || !IsDigit(behind[0])
    ensures ParseInt("+" + Dec(n) + behind, default) == if n < INT_LIMIT then n else default
  {
    hide ParseInt, Digits;
    NumberReads("+", n, behind, default);
  }

  lemma BehindBlanks(blanks: string, text: string, default: Int32)
    requires Blank(blanks) && text != "" && !IsSpace(text[0])
    ensures ParseInt(blanks + text, default) == ParseInt(text, default)
  {
    hide TrimLeft, NumeralPrefix, NumeralValue;
    TrimLeftBlanks(blanks, text);
    TrimLeftBlanks("", text);
    assert "" + text == text;
  }

  lemma NumberReads(sign: string, n: nat, behind: string, default: Int32)
    requires sign == "" || sign == "-" || sign == "+"
    requires behind == "" || !IsDigit(behind[0])
    ensures var w: int := if sign == "-" then -(n as int) else n;
            ParseInt(sign + Digits(n, 10) + behind, default) == if -INT_LIMIT <= w < INT_LIMIT then w else default
  {
    hide Digits, NumeralValue, ParseInt, NumeralPrefix;
    var digits := Digits(n, 10);
    assert sign + digits + behind == sign + (digits + behind);
    DigitsValue(n, 10);
    PlainDigit(digits[0]);
    PrefixStops(digits, behind);
    SignReads(sign, digits + behind, digits, default);
  }

  lemma SignReads(sign: string, text: string, digits: string, default: Int32)
    requires sign == "" || sign == "-" || sign == "+"
    requires text != "" && !IsSpace(text[0]) && text[0] != '-' && text[0] != '+'
    requires NumeralPrefix(text, 10) == digits != ""
    ensures var w: int := if sign == "-" then -(NumeralValue(digits, 10) as int) else NumeralValue(digits, 10);
            ParseInt(sign + text, default) == if -INT_LIMIT <= w < INT_LIMIT then w else default
  {
    hide NumeralValue, NumeralPrefix;
    assert sign == "" ==> sign + text == text;
    assert sign != "" ==> (sign + text)[1..] == text && (sign + text)[0] == sign[0];
    assert TrimLeft(sign + text) == sign + text;
  }

  lemma NothingReads(blanks: string, behind: string, default: Int32)
    requires Blank(blanks) && (behind == "" || !IsDigit(behind[0]))
    ensures ParseInt(blanks, default) == default
    ensures behind != "" && !IsSpace(behind[0]) && behind[0] != '-' && behind[0] != '+' ==>
              ParseInt(blanks + behind, default) == default
  {
    hide TrimLeft, NumeralPrefix;
    AllBlank(blanks);
    if behind != "" && !IsSpace(behind[0]) {
      TrimLeftBlanks(blanks, behind);
      PrefixStops("", behind);
      assert "" + behind == behind;
    }
  }

  lemma {:induction false} AllBlank(s: string)
    requires Blank(s)
    ensures TrimLeft(s) == "" && NumeralPrefix("", 10) == ""
  {
    if s != "" {
      AllBlank(s[1..]);
    }
  }

  lemma {:induction false} PrefixStops(digits: string, behind: string)
    requires Numeral(digits, 10) && (behind == "" || !IsDigit(behind[0]))
    ensures NumeralPrefix(digits + behind, 10) == digits
    decreases |digits|
  {
    if digits == "" {
      assert digits + behind == behind;
    } else {
      assert (digits + behind)[1..] == digits[1..] + behind;
      PrefixStops(digits[1..], behind);
    }
  }

  /** Printing and reading back an int is the identity, whatever the default. */
  lemma DecRoundTrip(n: Int32, default: Int32)
    ensures ParseInt(Dec(n), default) == n
  {
    hide Dec, ParseInt;
    IntReads("", n, "", default);
    assert "" + (Dec(n) + "") == Dec(n);
  }

  function Spaces(n: nat): (s: string)
    ensures |s| == n && forall i :: 0 <= i < n ==> s[i] == ' '
  {
    seq(n, _ => ' ')
  }

  /** size_t2Hex: lower-case hexadecimal, padded on the left with blanks. */
  function Hex(n: nat, width: nat): string {
    var digits := Digits(n, 16);
    if |digits| < width then Spaces(width - |digits|) + digits else digits
  }

  /** parseHex: a size_t read in hexadecimal.  Leading white space, one sign and a 0x mark are
      accepted; no digits read as 0, too many as the largest size_t, a minus sign negates.  An empty or blank
      text, on which the extraction does not start, is taken to read as 0 as well. */
  function ParseHex(s: string): (r: nat)
    ensures r < U64_LIMIT
  {
    var t := TrimLeft(s);
    var signed := t != "" && (t[0] == '-' || t[0] == '+');
    var u := if signed then t[1..] else t;
    var marked := |u| >= 2 && u[0] == '0' && (u[1] == 'x' || u[1] == 'X');
    var digits := NumeralPrefix(if marked then u[2..] else u, 16);
    var v := NumeralValue(digits, 16);
    if v >= U64_LIMIT then U64_LIMIT - 1
    else if signed && t[0] == '-' then (U64_LIMIT - v) % U64_LIMIT
    else v
  }

  lemma {:induction false} TrimLeftSpaces(n: nat, s: string)
    requires s != "" && !IsSpace(s[0])
    ensures TrimLeft(Spaces(n) + s) == s
  {
    if n == 0 {
      assert Spaces(0) + s == s;
    } else {
      assert (Spaces(n) + s)[1..] == Spaces(n - 1) + s;
      TrimLeftSpaces(n - 1, s);
    }
  }

  lemma HexShape(n: nat, width: nat)
    ensures Hex(n, width) != "" && Hex(n, width)[|Hex(n, width)| - 1] != ' '
    ensures Free(Hex(n, width), ',') && Free(Hex(n, width), '"')
    ensures TrimLeft(Hex(n, width)) == Digits(n, 16)
    ensures TrimRight(Hex(n, width)) == Hex(n, width)
  {
    hide Digits, IsHexChar, AllHexChars;
    var digits, text := Digits(n, 16), Hex(n, width);
    DigitEnds(digits);
    PlainDigits(digits);
    assert text[|text| - 1] == digits[|digits| - 1];
    if |digits| < width {
      TrimLeftSpaces(width - |digits|, digits);
      FreeConcat(Spaces(width - |digits|), digits, ',');
      FreeConcat(Spaces(width - |digits|), digits, '"');
    }
  }

  lemma DigitEnds(s: string)
    requires s != "" && AllHexChars(s)
    ensures !IsSpace(s[0]) && !IsSpace(s[|s| - 1])
  {
    hide IsHexChar;
    PlainDigit(s[0]);
    PlainDigit(s[|s| - 1]);
  }

  /** Blank-padded hexadecimal reads back, also after the trimming of the header scanner. */
  lemma HexRoundTrip(n: nat, width: nat)
    requires n < U64_LIMIT
    ensures ParseHex(Trim(Hex(n, width))) == n
  {
    hide Hex, ParseHex;
    HexShape(n, width);
    HexDigitsRead(n);
  }

  lemma HexDigitsRead(n: nat)
    requires n < U64_LIMIT
    ensures ParseHex(Digits(n, 16)) == n
  {
    hide Digits, NumeralValue, NumeralPrefix, IsHexChar;
    var digits := Digits(n, 16);
    DigitsValue(n, 16);
    PrefixOfNumeral(digits, 16);
    PlainDigit(digits[0]);
    assert TrimLeft(digits) == digits;
    if |digits| >= 2 {
      PlainDigit(digits[1]);
    }
  }

  // ---------------------------------------------------------------- hash text

  function ByteHex(b: Byte): (s: string)
    ensures |s| == 2
  {
    [DigitChar(b / 16), DigitChar(b % 16)]
  }

  function HexText(bytes: seq<Byte>): (s: string)
    ensures |s| == 2 * |bytes| && AllHexChars(s)
  {
    if bytes == [] then "" else HexText(bytes[..|bytes| - 1]) + ByteHex(bytes[|bytes| - 1])
  }

  /** bytes2Hex: the loop over the digest, two characters a byte. */
  method BytesToHex(bytes: seq<Byte>) returns (s: string)
    ensures s == HexText(bytes)
  {
    s := "";
    for i := 0 to |bytes|
      invariant s == HexText(bytes[..i])
    {
      assert bytes[..i + 1][..i] == bytes[..i];
      s := s + ByteHex(bytes[i]);
    }
    assert bytes[..|bytes|] == bytes;
  }

  /** The hash text has none of the characters the header grammar gives a meaning to. */
  lemma HexTextFree(bytes: seq<Byte>)
    ensures Free(HexText(bytes), ',') && Free(HexText(bytes), '"') && Free(HexText(bytes), ':')
  {
    hide HexText;
    PlainDigits(HexText(bytes));
  }

  /** Different digests print differently. */
  lemma {:induction false} HexTextInjective(a: seq<Byte>, b: seq<Byte>)
    requires HexText(a) == HexText(b)
    ensures a == b
  {
    if a != [] {
      var s, t := HexText(a), HexText(b);
      var n := |a| - 1;
      assert s[..2 * n] == HexText(a[..n]) && t[..2 * n] == HexText(b[..n]);
      HexTextInjective(a[..n], b[..n]);
      assert s[2 * n..] == ByteHex(a[n]) && t[2 * n..] == ByteHex(b[n]);
      assert ByteHex(a[n])[0] == ByteHex(b[n])[0] && ByteHex(a[n])[1] == ByteHex(b[n])[1];
      assert a[n] == b[n];
      assert a == a[..n] + [a[n]] && b == b[..n] + [b[n]];
    }
  }
}
