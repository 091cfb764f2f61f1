/** The few JavaScript string built-ins the timetable code relies on:
    `trim`, `toLowerCase`, `includes`, `parseInt` and number-to-string
    conversion inside template literals. */
module JsString {
  import opened Common

  /** The characters `String.prototype.trim` removes: the ECMAScript
      WhiteSpace and LineTerminator code points. */
  predicate IsWhitespace(c: char) {
    var n := c as int;
    n == 0x09 || n == 0x0A || n == 0x0B || n == 0x0C || n == 0x0D || n == 0x20
    || n == 0xA0 || n == 0x1680 || (0x2000 <= n <= 0x200A) || n == 0x2028
    || n == 0x2029 || n == 0x202F || n == 0x205F || n == 0x3000 || n == 0xFEFF
  }

  predicate AllWhitespace(s: string) {
    forall i :: 0 <= i < |s| ==> IsWhitespace(s[i])
  }

  /** `s.trimStart()`: drops the leading whitespace. */
  function TrimStart(s: string): (r: string)
    ensures |r| <= |s| && r == s[|s| - |r|..]
    ensures AllWhitespace(s[..|s| - |r|])
    ensures r == [] || !IsWhitespace(r[0])
  {
    if |s| > 0 && IsWhitespace(s[0]) then
      var r := TrimStart(s[1..]);
      assert s[..|s| - |r|] == [s[0]] + s[1..][..|s[1..]| - |r|];
      r
    else s
  }

  /** `s.trimEnd()`: drops the trailing whitespace. */
  function TrimEnd(s: string): (r: string)
    ensures |r| <= |s| && r == s[..|r|]
    ensures AllWhitespace(s[|r|..])
    ensures r == [] || !IsWhitespace(r[|r| - 1])
  {
    if |s| > 0 && IsWhitespace(s[|s| - 1]) then
      var r := TrimEnd(s[..|s| - 1]);
      assert s[|r|..] == s[..|s| - 1][|r|..] + [s[|s| - 1]];
      r
    else s
  }

  /** `s.trim()`. */
  function Trim(s: string): (r: string)
  {
    TrimEnd(TrimStart(s))
  }

  /** A trimmed string is empty exactly when the input is blank, and otherwise
      neither starts nor ends with whitespace. */
  lemma TrimProperties(s: string)
    ensures Trim(s) == [] <==> AllWhitespace(s)
    ensures Trim(s) != [] ==> !IsWhitespace(Trim(s)[0]) && !IsWhitespace(Trim(s)[|Trim(s)| - 1])
  {
    var t := TrimStart(s);
    var r := TrimEnd(t);
    if r == [] {
      assert t[|r|..] == t;
      assert t == [];
      assert s[..|s| - |t|] == s;
    } else {
      assert t[0] == r[0];
      assert t[0] == s[|s| - |t|];
    }
  }

  /** Trimming is idempotent: a trimmed string trims to itself. */
  lemma {:induction false} TrimIdempotent(s: string)
    ensures Trim(Trim(s)) == Trim(s)
  {
    var r := Trim(s);
    TrimProperties(s);
    if r != [] {
      assert TrimStart(r) == r;
      assert TrimEnd(r) == r;
    }
  }

  /** `toLowerCase` on the ASCII letters. */
  function LowerChar(c: char): (d: char)
  {
    if 'A' <= c <= 'Z' then (c as int + 32) as char else c
  }

  function ToLower(s: string): (r: string)
    ensures |r| == |s|
    ensures forall i :: 0 <= i < |s| ==> r[i] == LowerChar(s[i])
  {
    if |s| == 0 then [] else [LowerChar(s[0])] + ToLower(s[1..])
  }

  /** `hay.includes(needle)`: `needle` occurs in `hay` as a contiguous block. */
  predicate Includes(hay: string, needle: string)
    decreases |hay|
  {
    if |needle| <= |hay| && hay[..|needle|] == needle then true
    else if |hay| == 0 then false
    else Includes(hay[1..], needle)
  }

  predicate OccursAt(hay: string, needle: string, i: int) {
    0 <= i && i + |needle| <= |hay| && hay[i..i + |needle|] == needle
  }

  /** `Includes` holds exactly when the needle occurs at some offset. */
  lemma {:induction false} IncludesIff(hay: string, needle: string)
    ensures Includes(hay, needle) <==> exists i :: OccursAt(hay, needle, i)
    decreases |hay|
  {
    if |needle| <= |hay| && hay[..|needle|] == needle {
      assert OccursAt(hay, needle, 0);
    } else if |hay| == 0 {
      assert forall i :: !OccursAt(hay, needle, i);
    } else {
      IncludesIff(hay[1..], needle);
      if i :| OccursAt(hay[1..], needle, i) {
        assert hay[i + 1..i + 1 + |needle|] == hay[1..][i..i + |needle|];
        assert OccursAt(hay, needle, i + 1);
      }
      if i :| OccursAt(hay, needle, i) {
        assert i != 0;
        assert hay[1..][i - 1..i - 1 + |needle|] == hay[i..i + |needle|];
        assert OccursAt(hay[1..], needle, i - 1);
      }
    }
  }

  // ----- parseInt -----

  predicate IsDigitIn(c: char, radix: nat) {
    if radix == 16 then '0' <= c <= '9' || 'a' <= c <= 'f' || 'A' <= c <= 'F'
    else '0' <= c <= '9'
  }

  function DigitValue(c: char): (v: nat)
    ensures '0' <= c <= '9' ==> v < 10
    ensures v < 16
  {
    if '0' <= c <= '9' then c as int - '0' as int
    else if 'a' <= c <= 'f' then c as int - 'a' as int + 10
    else if 'A' <= c <= 'F' then c as int - 'A' as int + 10
    else 0
  }

  /** The longest prefix of `s` made of digits of the radix. */
  function DigitPrefix(s: string, radix: nat): (d: string)
    ensures |d| <= |s| && d == s[..|d|]
    ensures forall i :: 0 <= i < |d| ==> IsDigitIn(d[i], radix)
    ensures |d| == |s| || !IsDigitIn(s[|d|], radix)
  {
    if |s| > 0 && IsDigitIn(s[0], radix) then [s[0]] + DigitPrefix(s[1..], radix) else []
  }

  /** The value of a digit string, most significant digit first. */
  function DigitsValue(d: string, radix: nat): nat
  {
    if |d| == 0 then 0 else DigitsValue(d[..|d| - 1], radix) * radix + DigitValue(d[|d| - 1])
  }

  /** JavaScript's `parseInt(s)` with no radix argument: leading whitespace is
      skipped, one sign is accepted, a `0x`/`0X` prefix switches to base 16, and
      the longest run of digits that follows is read. `None` is NaN (no digit at
      all). */
  function ParseInt(s: string): Option<int>
  {
    var t := TrimStart(s);
    if |t| > 0 && t[0] == '-' then
      match ParseMagnitude(t[1..])
      case None => None
      case Some(v) => Some(-(v as int))
    else if |t| > 0 && t[0] == '+' then ParseMagnitude(t[1..])
    else ParseMagnitude(t)
  }

  /** The text after one leading sign, if any. */
  function Unsigned(t: string): string
  {
    if |t| > 0 && (t[0] == '-' || t[0] == '+') then t[1..] else t
  }

  /** No digit follows the optional `0x` prefix. */
  predicate NoLeadingDigit(body: string) {
    if HasHexPrefix(body) then |body| == 2 || !IsDigitIn(body[2], 16) else |body| == 0 || !IsDigitIn(body[0], 10)
  }

  lemma {:induction false} MagnitudeNaNIff(body: string)
    ensures ParseMagnitude(body).None? <==> NoLeadingDigit(body)
  {
    var rest := if HasHexPrefix(body) then body[2..] else body;
    var radix := if HasHexPrefix(body) then 16 else 10;
    if |rest| > 0 && IsDigitIn(rest[0], radix) {
      assert DigitPrefix(rest, radix) == [rest[0]] + DigitPrefix(rest[1..], radix);
    }
  }

  /** `parseInt` gives NaN exactly when no digit follows the leading
      whitespace, the optional sign and the optional `0x` prefix, and a
      negative number only after a '-'. */
  lemma {:induction false} ParseIntNaNIff(s: string)
    ensures ParseInt(s).None? <==> NoLeadingDigit(Unsigned(TrimStart(s)))
    ensures ParseInt(s).Some? && ParseInt(s).value < 0 ==> |TrimStart(s)| > 0 && TrimStart(s)[0] == '-'
  {
    MagnitudeNaNIff(Unsigned(TrimStart(s)));
  }

  predicate HasHexPrefix(body: string) {
    |body| >= 2 && body[0] == '0' && (body[1] == 'x' || body[1] == 'X')
  }

  /** The unsigned part of `parseInt`: an optional hex prefix, then digits. */
  function ParseMagnitude(body: string): Option<nat>
  {
    var digits := if HasHexPrefix(body) then DigitPrefix(body[2..], 16) else DigitPrefix(body, 10);
    if |digits| == 0 then None
    else Some(DigitsValue(digits, if HasHexPrefix(body) then 16 else 10))
  }

  // ----- number to string -----

  function DigitChar(d: nat): (c: char)
    requires d < 10
    ensures '0' <= c <= '9' && DigitValue(c) == d
  {
    ('0' as int + d) as char
  }

  /** The decimal rendering of a natural number, as `${n}` produces it. */
  function NatToString(n: nat): (s: string)
    ensures |s| > 0 && s[0] != '-' && s[0] != '+' && !IsWhitespace(s[0])
    ensures forall i :: 0 <= i < |s| ==> '0' <= s[i] <= '9'
  {
    if n < 10 then [DigitChar(n)] else NatToString(n / 10) + [DigitChar(n % 10)]
  }

  /** The decimal rendering of an integer, as `${n}` produces it. */
  function IntToString(n: int): (s: string)
    ensures |s| > 0
  {
    if n < 0 then "-" + NatToString(-n) else NatToString(n)
  }

  lemma {:induction false} DigitsValueOfNat(n: nat)
    ensures DigitsValue(NatToString(n), 10) == n
  {
    if n >= 10 {
      var s := NatToString(n);
      assert s[..|s| - 1] == NatToString(n / 10);
      DigitsValueOfNat(n / 10);
    }
  }

  lemma DigitPrefixOfDigits(s: string)
    requires forall i :: 0 <= i < |s| ==> '0' <= s[i] <= '9'
    ensures DigitPrefix(s, 10) == s
  {
    if |s| > 0 {
      DigitPrefixOfDigits(s[1..]);
    }
  }

  /** Decimal digits read back to their value. */
  lemma ParseDecimalDigits(digits: string)
    requires |digits| > 0 && forall i :: 0 <= i < |digits| ==> '0' <= digits[i] <= '9'
    ensures ParseMagnitude(digits) == Some(DigitsValue(digits, 10))
  {
    DigitPrefixOfDigits(digits);
    assert !HasHexPrefix(digits);
  }

  lemma ParseNatString(n: int)
    requires n >= 0
    ensures ParseInt(IntToString(n)) == Some(n)
  {
    var digits := NatToString(n);
    assert IntToString(n) == digits;
    DigitsValueOfNat(n);
    ParseDecimalDigits(digits);
    assert TrimStart(digits) == digits;
    assert digits[0] != '-' && digits[0] != '+';
  }

  lemma ParseNegativeString(n: int)
    requires n < 0
    ensures ParseInt(IntToString(n)) == Some(n)
  {
    var digits := NatToString(-n);
    var s := "-" + digits;
    assert IntToString(n) == s;
    DigitsValueOfNat(-n);
    ParseDecimalDigits(digits);
    assert s[0] == '-';
    assert !IsWhitespace(s[0]);
    assert TrimStart(s) == s;
    assert s[1..] == digits;
    assert ParseMagnitude(s[1..]) == Some(-n);
  }

  /** Reading back a rendered integer gives the integer: `parseInt(`${n}`) == n`. */
  lemma ParseIntRoundTrip(n: int)
    ensures ParseInt(IntToString(n)) == Some(n)
  {
    if n < 0 {
      ParseNegativeString(n);
    } else {
      ParseNatString(n);
    }
  }

  /** A string of whitespace only parses to NaN. */
  lemma BlankParsesToNaN(s: string)
    requires AllWhitespace(s)
    ensures ParseInt(s) == None
  {
  }

  /** `${a}-${b}-${c}`, the grouping key the engine builds for a triple. */
  function KeyString(a: int, b: string, c: int): string
  {
    IntToString(a) + "-" + b + "-" + IntToString(c)
  }

  lemma {:induction false} NatToStringInjective(m: nat, n: nat)
    requires NatToString(m) == NatToString(n)
    ensures m == n
  {
    DigitsValueOfNat(m);
    DigitsValueOfNat(n);
  }

  lemma {:induction false} NoDashInNat(n: nat)
    ensures '-' !in NatToString(n)
  {
  }

  /** Two strings joined by '-' split back at the last '-' when the second
      part holds none. */
  lemma {:induction false} SplitAtLastDash(x: string, y: string, x2: string, y2: string)
    requires '-' !in y && '-' !in y2
    requires x + "-" + y == x2 + "-" + y2
    ensures x == x2 && y == y2
  {
    var s := x + "-" + y;
    var s2 := x2 + "-" + y2;
    DashBefore(x, y);
    DashBefore(x2, y2);
    assert |x| == |x2|;
    assert x == s[..|x|] && x2 == s2[..|x2|];
    assert y == s[|x| + 1..] && y2 == s2[|x2| + 1..];
  }

  /** In `x + "-" + y`, with no '-' in `y`, the last '-' is at `|x|`. */
  lemma {:induction false} DashBefore(x: string, y: string)
    requires '-' !in y
    ensures (x + "-" + y)[|x|] == '-'
    ensures forall k :: |x| < k < |x + "-" + y| ==> (x + "-" + y)[k] != '-'
  {
    forall k | |x| < k < |x + "-" + y| ensures (x + "-" + y)[k] != '-' {
      assert (x + "-" + y)[k] == y[k - |x| - 1];
    }
  }

  /** Different integers render differently. */
  lemma {:induction false} IntToStringInjective(m: int, n: int)
    requires IntToString(m) == IntToString(n)
    ensures m == n
  {
    ParseIntRoundTrip(m);
    ParseIntRoundTrip(n);
  }

  /** The key `${a}-${b}-${c}` determines its triple when the last number is
      non-negative and `b` holds no '-': the last two '-' then sit around
      `b`, whatever the sign of `a`, so grouping by the string is grouping by
      the triple. */
  lemma {:induction false} KeyStringInjective(a: int, b: string, c: int, a2: int, b2: string, c2: int)
    requires c >= 0 && c2 >= 0 && '-' !in b && '-' !in b2
    requires KeyString(a, b, c) == KeyString(a2, b2, c2)
    ensures a == a2 && b == b2 && c == c2
  {
    assert IntToString(c) == NatToString(c) && IntToString(c2) == NatToString(c2);
    NoDashInNat(c);
    NoDashInNat(c2);
    SplitAtLastDash(IntToString(a) + "-" + b, NatToString(c), IntToString(a2) + "-" + b2, NatToString(c2));
    NatToStringInjective(c, c2);
    SplitAtLastDash(IntToString(a), b, IntToString(a2), b2);
    IntToStringInjective(a, a2);
  }

  /** Without those conditions two triples can share a key:
      (1, "x", -2) and (1, "x-", 2) both give "1-x--2". */
  lemma KeyStringCollision()
    ensures KeyString(1, "x", -2) == KeyString(1, "x-", 2)
  {
    assert NatToString(1) == "1";
    assert NatToString(2) == "2";
    assert IntToString(-2) == "-2";
  }
}
