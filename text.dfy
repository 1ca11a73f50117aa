/** String operations of JavaScript that the catalog code relies on:
    truthiness, `trim`, `toLowerCase`, `includes`, `startsWith`, `join`,
    number rendering in template literals, and the order `localeCompare` gives. */
module Text {
  import opened Wrappers

  /** A string-valued field is truthy when present and non-empty. */
  predicate Truthy(o: Option<string>) {
    o.Some? && o.value != []
  }

  /** `o || fallback` for a string-valued field. */
  function OrElse(o: Option<string>, fallback: string): string {
    if Truthy(o) then o.value else fallback
  }

  /** The characters matched by `\s` and removed by `trim`: ASCII white space,
      the no-break space, the byte-order mark and the two Unicode line terminators. */
  predicate IsSpace(c: char) {
    c == ' ' || c == '\t' || c == '\n' || c == '\r' || c == '\U{B}' || c == '\U{C}'
    || c == '\U{A0}' || c == '\U{FEFF}' || c == '\U{2028}' || c == '\U{2029}'
  }

  predicate AllSpace(s: string) {
    forall k :: 0 <= k < |s| ==> IsSpace(s[k])
  }

  function LeadingSpaces(s: string): (n: nat)
    ensures n <= |s|
    ensures AllSpace(s[..n])
    ensures n < |s| ==> !IsSpace(s[n])
  {
    if s != [] && IsSpace(s[0]) then
      var n := 1 + LeadingSpaces(s[1..]);
      assert s[..n] == [s[0]] + s[1..][..n - 1];
      n
    else 0
  }

  function TrailingSpaces(s: string): (n: nat)
    ensures n <= |s|
    ensures AllSpace(s[|s| - n..])
    ensures n < |s| ==> !IsSpace(s[|s| - 1 - n])
  {
    if s != [] && IsSpace(s[|s| - 1]) then
      var n := 1 + TrailingSpaces(s[..|s| - 1]);
      assert s[|s| - n..] == s[..|s| - 1][|s| - n..] + [s[|s| - 1]];
      n
    else 0
  }

  /** `String.prototype.trim`: the infix left after removing leading and
      trailing white space. */
  function Trim(s: string): (r: string)
    ensures |r| <= |s|
    ensures |r| <= |s| - LeadingSpaces(s) && r == s[LeadingSpaces(s)..][..|r|]
    ensures AllSpace(s[..LeadingSpaces(s)]) && AllSpace(s[LeadingSpaces(s) + |r|..])
    ensures r != [] ==> !IsSpace(r[0]) && !IsSpace(r[|r| - 1])
  {
    var t := s[LeadingSpaces(s)..];
    var r := t[..|t| - TrailingSpaces(t)];
    assert s[LeadingSpaces(s) + |r|..] == t[|t| - TrailingSpaces(t)..];
    r
  }

  /** A string trims to nothing exactly when every character is white space. */
  lemma TrimEmptyIff(s: string)
    ensures Trim(s) == [] <==> AllSpace(s)
  {
    var n := LeadingSpaces(s);
    var t := s[n..];
    if Trim(s) == [] {
      var m := TrailingSpaces(t);
      assert t[|t| - m..] == t;
      assert n == |s|;
      assert s[..n] == s;
    }
    if AllSpace(s) {
      assert n == |s|;
    }
  }

  /** Trimming is idempotent. */
  lemma TrimIdempotent(s: string)
    ensures Trim(Trim(s)) == Trim(s)
  {
    var r := Trim(s);
    if r != [] {
      assert LeadingSpaces(r) == 0;
      assert r[0..] == r;
      assert TrailingSpaces(r) == 0;
    }
  }

  /** Blank in the sense of `!s || s.trim().length === 0`. */
  predicate IsBlank(o: Option<string>) {
    o.None? || Trim(o.value) == []
  }

  /** ASCII case mapping of `toLowerCase` / SQL `LOWER`. */
  function LowerChar(c: char): char {
    if 'A' <= c <= 'Z' then (c as int + 32) as char else c
  }

  function ToLower(s: string): (r: string)
    ensures |r| == |s|
    ensures forall k :: 0 <= k < |s| ==> r[k] == LowerChar(s[k])
  {
    if s == [] then [] else [LowerChar(s[0])] + ToLower(s[1..])
  }

  /** `s.startsWith(prefix)`. */
  predicate StartsWith(s: string, prefix: string) {
    prefix <= s
  }

  /** `s.includes(sub)`: `sub` occurs at some position of `s`. */
  predicate Contains(s: string, sub: string) {
    exists i :: 0 <= i <= |s| && sub <= s[i..]
  }

  /** `parts.join(sep)`. */
  function Join(parts: seq<string>, sep: string): string {
    if |parts| == 0 then ""
    else if |parts| == 1 then parts[0]
    else parts[0] + sep + Join(parts[1..], sep)
  }

  /** Decimal rendering of a natural number, as a template literal prints it. */
  function NatToString(n: nat): (r: string)
    ensures r != []
    ensures forall k :: 0 <= k < |r| ==> '0' <= r[k] <= '9'
  {
    if n < 10 then [('0' as int + n) as char]
    else NatToString(n / 10) + [('0' as int + n % 10) as char]
  }

  predicate IsDigit(c: char) {
    '0' <= c <= '9'
  }

  /** The number of decimal digits `s` starts with. */
  function DigitPrefix(s: string): (n: nat)
    ensures n <= |s|
    ensures forall k :: 0 <= k < n ==> IsDigit(s[k])
    ensures n < |s| ==> !IsDigit(s[n])
  {
    if s != [] && IsDigit(s[0]) then 1 + DigitPrefix(s[1..]) else 0
  }

  /** The value of a string of decimal digits, the last one the units. */
  function DigitsValue(d: string): nat
    requires forall k :: 0 <= k < |d| ==> IsDigit(d[k])
  {
    if d == [] then 0
    else
      assert IsDigit(d[|d| - 1]);
      10 * DigitsValue(d[..|d| - 1]) + (d[|d| - 1] as int - '0' as int)
  }

  /** The number the digits at the start of `u` spell, if it starts with one. */
  function ReadDigits(u: string): Option<int> {
    var n := DigitPrefix(u);
    if n == 0 then None else Some(DigitsValue(u[..n]))
  }

  /** The digits of base 16, in either case. */
  predicate IsHexDigit(c: char) {
    IsDigit(c) || 'a' <= c <= 'f' || 'A' <= c <= 'F'
  }

  function HexDigitValue(c: char): (v: nat)
    requires IsHexDigit(c)
    ensures v < 16
  {
    if IsDigit(c) then c as int - '0' as int
    else if 'a' <= c <= 'f' then c as int - 'a' as int + 10
    else c as int - 'A' as int + 10
  }

  /** The number of hexadecimal digits `s` starts with. */
  function HexPrefix(s: string): (n: nat)
    ensures n <= |s|
    ensures forall k :: 0 <= k < n ==> IsHexDigit(s[k])
    ensures n < |s| ==> !IsHexDigit(s[n])
  {
    if s != [] && IsHexDigit(s[0]) then 1 + HexPrefix(s[1..]) else 0
  }

  /** The value of a string of hexadecimal digits, the last one the units. */
  function HexValue(h: string): nat
    requires forall k :: 0 <= k < |h| ==> IsHexDigit(h[k])
  {
    if h == [] then 0
    else
      assert IsHexDigit(h[|h| - 1]);
      16 * HexValue(h[..|h| - 1]) + HexDigitValue(h[|h| - 1])
  }

  /** The number the hexadecimal digits at the start of `u` spell, if it
      starts with one. */
  function ReadHex(u: string): Option<int> {
    var n := HexPrefix(u);
    if n == 0 then None else Some(HexValue(u[..n]))
  }

  /** Without a radix, `parseInt` reads base 16 after a `0x` or `0X`. */
  predicate HasHexPrefix(u: string) {
    |u| >= 2 && u[0] == '0' && (u[1] == 'x' || u[1] == 'X')
  }

  /** What `parseInt` reads after the sign: hexadecimal digits after a
      `0x` prefix, decimal digits otherwise. */
  function ReadNumber(u: string): Option<int> {
    if HasHexPrefix(u) then ReadHex(u[2..]) else ReadDigits(u)
  }

  function Negate(o: Option<int>): Option<int> {
    if o.Some? then Some(-o.value) else None
  }

  /** `parseInt(s)` with no radix: leading white space is skipped, one sign
      is read, then a `0x` or `0X` prefix selects base 16, and every digit
      of the base up to the first character that is not one is read; with
      no digit there the result is `NaN`, here `None`. */
  function ParseInt(s: string): Option<int> {
    var t := s[LeadingSpaces(s)..];
    if t != [] && t[0] == '-' then Negate(ReadNumber(t[1..]))
    else if t != [] && t[0] == '+' then ReadNumber(t[1..])
    else ReadNumber(t)
  }

  /** Digits followed by anything that does not start with a digit: the
      digit prefix is exactly the digits. */
  lemma {:induction false} DigitPrefixOf(d: string, rest: string)
    requires forall k :: 0 <= k < |d| ==> IsDigit(d[k])
    requires rest == [] || !IsDigit(rest[0])
    ensures DigitPrefix(d + rest) == |d|
  {
    if d != [] {
      assert (d + rest)[1..] == d[1..] + rest;
      DigitPrefixOf(d[1..], rest);
    }
  }

  lemma {:induction false} HexPrefixOf(h: string, rest: string)
    requires forall k :: 0 <= k < |h| ==> IsHexDigit(h[k])
    requires rest == [] || !IsHexDigit(rest[0])
    ensures HexPrefix(h + rest) == |h|
  {
    if h != [] {
      assert (h + rest)[1..] == h[1..] + rest;
      HexPrefixOf(h[1..], rest);
    }
  }

  /** Decimal digits that are not a lone `0` before an `x` are read in base 10. */
  lemma {:induction false} ReadDigitsOf(d: string, rest: string)
    requires d != [] && forall k :: 0 <= k < |d| ==> IsDigit(d[k])
    requires rest == [] || !IsDigit(rest[0])
    requires !(d == "0" && rest != [] && (rest[0] == 'x' || rest[0] == 'X'))
    ensures ReadNumber(d + rest) == Some(DigitsValue(d))
  {
    var u := d + rest;
    if |d| >= 2 {
      assert u[1] == d[1] && IsDigit(u[1]);
    } else if |u| >= 2 {
      assert d == [d[0]] && u[1] == rest[0];
    }
    assert !HasHexPrefix(u);
    DigitPrefixOf(d, rest);
    assert u[..|d|] == d;
  }

  lemma {:induction false} ReadHexOf(h: string, rest: string)
    requires h != [] && forall k :: 0 <= k < |h| ==> IsHexDigit(h[k])
    requires rest == [] || !IsHexDigit(rest[0])
    ensures ReadHex(h + rest) == Some(HexValue(h))
  {
    HexPrefixOf(h, rest);
    assert (h + rest)[..|h|] == h;
  }

  /** `parseInt` stops at the first character that is not a digit. */
  lemma {:induction false} ParseIntLeadingDigits(d: string, rest: string)
    requires d != [] && forall k :: 0 <= k < |d| ==> IsDigit(d[k])
    requires rest == [] || !IsDigit(rest[0])
    requires !(d == "0" && rest != [] && (rest[0] == 'x' || rest[0] == 'X'))
    ensures ParseInt(d + rest) == Some(DigitsValue(d))
  {
    ReadDigitsOf(d, rest);
    ParseIntUnsigned(d + rest);
  }

  /** A minus sign before the digits negates them. */
  lemma {:induction false} ParseIntNegative(d: string, rest: string)
    requires d != [] && forall k :: 0 <= k < |d| ==> IsDigit(d[k])
    requires rest == [] || !IsDigit(rest[0])
    requires !(d == "0" && rest != [] && (rest[0] == 'x' || rest[0] == 'X'))
    ensures ParseInt(['-'] + (d + rest)) == Some(-(DigitsValue(d) as int))
  {
    ReadDigitsOf(d, rest);
    ParseIntMinus(d + rest, DigitsValue(d));
  }

  /** After `0x` or `0X`, `parseInt` reads hexadecimal digits up to the
      first character that is not one, with or without a minus sign. */
  lemma {:induction false} ParseIntHex(x: char, h: string, rest: string)
    requires x == 'x' || x == 'X'
    requires h != [] && forall k :: 0 <= k < |h| ==> IsHexDigit(h[k])
    requires rest == [] || !IsHexDigit(rest[0])
    ensures ParseInt(['0', x] + (h + rest)) == Some(HexValue(h))
    ensures ParseInt(['-'] + (['0', x] + (h + rest))) == Some(-(HexValue(h) as int))
  {
    var u := ['0', x] + (h + rest);
    ReadNumberHex(x, h, rest);
    assert u[0] == '0';
    ParseIntUnsigned(u);
    ParseIntMinus(u, HexValue(h));
  }

  lemma {:induction false} ReadNumberHex(x: char, h: string, rest: string)
    requires x == 'x' || x == 'X'
    requires h != [] && forall k :: 0 <= k < |h| ==> IsHexDigit(h[k])
    requires rest == [] || !IsHexDigit(rest[0])
    ensures ReadNumber(['0', x] + (h + rest)) == Some(HexValue(h))
  {
    var u := ['0', x] + (h + rest);
    assert HasHexPrefix(u) && u[2..] == h + rest;
    ReadHexOf(h, rest);
  }

  lemma {:induction false} ParseIntUnsigned(u: string)
    requires u != [] && IsDigit(u[0])
    ensures ParseInt(u) == ReadNumber(u)
  {
    assert !IsSpace(u[0]);
    assert u[0..] == u;
  }

  lemma {:induction false} ParseIntMinus(u: string, v: int)
    requires ReadNumber(u) == Some(v)
    ensures ParseInt(['-'] + u) == Some(-v)
  {
    var s := ['-'] + u;
    assert LeadingSpaces(s) == 0;
    assert s[0..] == s && s[1..] == u;
  }

  /** A string with no digit where `parseInt` looks for one is `NaN`. */
  lemma ParseIntNoDigit(s: string)
    requires s == [] || (!IsSpace(s[0]) && !IsDigit(s[0]) && s[0] != '-' && s[0] != '+')
    ensures ParseInt(s) == None
  {
  }

  /** The fraction and the trailing letter are cut off. */
  lemma ParseIntCutsOff()
    ensures ParseInt("2a") == Some(2) && ParseInt("1.5") == Some(1)
  {
    ParseIntLeadingDigits("2", "a");
    assert "2a" == "2" + "a";
    ParseIntLeadingDigits("1", ".5");
    assert "1.5" == "1" + ".5";
  }

  /** The sign is kept, and letters are `NaN`. */
  lemma ParseIntSignAndNaN()
    ensures ParseInt("-2") == Some(-2) && ParseInt("abc") == None
  {
    ParseIntNegative("2", "");
    assert "-2" == ['-'] + ("2" + "");
    ParseIntNoDigit("abc");
  }

  lemma {:induction false} HexSixteen()
    ensures HexValue("10") == 16
  {
    assert "10"[..1] == "1" && "1"[..0] == "";
  }

  /** A `0x` prefix reads base 16. */
  lemma {:induction false} ParseIntHexExamples()
    ensures ParseInt("0x10") == Some(16)
  {
    HexSixteen();
    ReadNumberHex('x', "10", "");
    assert "0x10" == ['0', 'x'] + ("10" + "");
    ParseIntUnsigned("0x10");
  }

  /** A minus sign before `0x` negates the base-16 value. */
  lemma {:induction false} ParseIntNegativeHexExample()
    ensures ParseInt("-0x10") == Some(-16)
  {
    HexSixteen();
    ReadNumberHex('x', "10", "");
    assert "0x10" == ['0', 'x'] + ("10" + "");
    assert "-0x10" == ['-'] + "0x10";
    ParseIntMinus("0x10", 16);
  }

  /** `0x` with no hexadecimal digit after it is `NaN`. */
  lemma ParseIntHexNaN()
    ensures ParseInt("0x") == None && ParseInt("0xg") == None
  {
    ParseIntUnsigned("0x");
    assert HasHexPrefix("0x") && "0x"[2..] == "";
    ParseIntUnsigned("0xg");
    assert HasHexPrefix("0xg") && "0xg"[2..] == "g";
  }

  /** The rendering of a number is unambiguous: reading its digits back
      gives the number. */
  lemma {:induction false} DigitsValueToString(n: nat)
    ensures DigitsValue(NatToString(n)) == n
  {
    if n >= 10 {
      var s := NatToString(n);
      assert s[..|s| - 1] == NatToString(n / 10);
      DigitsValueToString(n / 10);
    }
  }

  /** `parseInt` reads a rendered number back. */
  lemma {:induction false} ParseIntToString(n: nat)
    ensures ParseInt(NatToString(n)) == Some(n)
  {
    DigitsValueToString(n);
    ParseIntLeadingDigits(NatToString(n), "");
    assert NatToString(n) + "" == NatToString(n);
  }

  /** Distinct numbers render differently. */
  lemma NatToStringInjective(m: nat, n: nat)
    requires NatToString(m) == NatToString(n)
    ensures m == n
  {
    DigitsValueToString(m);
    DigitsValueToString(n);
  }

  /** The total order that stands for `localeCompare`: lexicographic order of
      code points. */
  predicate NameLe(a: string, b: string) {
    if a == [] then true
    else if b == [] then false
    else if a[0] != b[0] then a[0] < b[0]
    else NameLe(a[1..], b[1..])
  }

  lemma {:induction false} NameLeTotal(a: string, b: string)
    ensures NameLe(a, b) || NameLe(b, a)
  {
    if a != [] && b != [] && a[0] == b[0] {
      NameLeTotal(a[1..], b[1..]);
    }
  }

  lemma {:induction false} NameLeTransitive(a: string, b: string, c: string)
    requires NameLe(a, b) && NameLe(b, c)
    ensures NameLe(a, c)
  {
    if a != [] && b != [] && c != [] && a[0] == b[0] && b[0] == c[0] {
      NameLeTransitive(a[1..], b[1..], c[1..]);
    }
  }

  lemma {:induction false} NameLeAntisymmetric(a: string, b: string)
    requires NameLe(a, b) && NameLe(b, a)
    ensures a == b
  {
    if a != [] && b != [] {
      NameLeAntisymmetric(a[1..], b[1..]);
      assert a == [a[0]] + a[1..];
      assert b == [b[0]] + b[1..];
    }
  }
}
