/**
 * The pieces of Rust's standard string handling that the bot relies on:
 * `char::is_whitespace` and `str::trim`, `str::trim_start_matches`,
 * `u32::to_string` / `str::parse::<u32>`, and the UTF-8 byte length that
 * `String::len` reports. Strings are sequences of Unicode scalar values.
 */
module Text {
  import opened Wrappers

  const U32Max: nat := 0xFFFF_FFFF

  /** Rust's `char::is_whitespace`: the Unicode White_Space property. */
  predicate IsWhitespace(c: char) {
    var v := c as int;
    (0x09 <= v <= 0x0D) || v == 0x20 || v == 0x85 || v == 0xA0 || v == 0x1680
    || (0x2000 <= v <= 0x200A) || v == 0x2028 || v == 0x2029 || v == 0x202F
    || v == 0x205F || v == 0x3000
  }

  /** Number of leading whitespace characters of `s`. */
  function LeadingSpace(s: string): (k: nat)
    ensures k <= |s|
    ensures forall i :: 0 <= i < k ==> IsWhitespace(s[i])
    ensures k < |s| ==> !IsWhitespace(s[k])
  {
    if s != [] && IsWhitespace(s[0]) then 1 + LeadingSpace(s[1..]) else 0
  }

  /** Length of `s` once its trailing whitespace is removed. */
  function TrimmedEnd(s: string): (k: nat)
    ensures k <= |s|
    ensures forall i :: k <= i < |s| ==> IsWhitespace(s[i])
    ensures k > 0 ==> !IsWhitespace(s[k - 1])
  {
    if s != [] && IsWhitespace(s[|s| - 1]) then TrimmedEnd(s[..|s| - 1]) else |s|
  }

  /**
   * `str::trim`: the slice of `s` left after dropping whitespace at both
   * ends. What is dropped is whitespace, and what is kept neither starts nor
   * ends with whitespace.
   */
  function Trim(s: string): (r: string)
    ensures LeadingSpace(s) + |r| <= |s|
    ensures r == s[LeadingSpace(s)..LeadingSpace(s) + |r|]
    ensures forall i :: LeadingSpace(s) + |r| <= i < |s| ==> IsWhitespace(s[i])
    ensures r != [] ==> !IsWhitespace(r[0]) && !IsWhitespace(r[|r| - 1])
  {
    var t := s[LeadingSpace(s)..];
    t[..TrimmedEnd(t)]
  }

  /** `t` is zero or more copies of `p`, back to back. */
  predicate CopiesOf(t: string, p: string)
    decreases |t|
  {
    t == [] || (p != [] && |p| <= |t| && t[..|p|] == p && CopiesOf(t[|p|..], p))
  }

  /**
   * `str::trim_start_matches(p)`: removes every repetition of `p` at the
   * front. What is dropped is copies of `p`, and what is kept does not start
   * with `p`.
   */
  function TrimStartMatches(s: string, p: string): (r: string)
    ensures |r| <= |s| && r == s[|s| - |r|..]
    ensures CopiesOf(s[..|s| - |r|], p)
    ensures p != [] ==> !(|p| <= |r| && r[..|p|] == p)
    decreases |s|
  {
    if p != [] && |p| <= |s| && s[..|p|] == p then
      var r := TrimStartMatches(s[|p|..], p);
      SuffixOfSuffix(s, |p|, |r|);
      DroppedCopies(s, p, |r|);
      r
    else
      assert s[..0] == [];
      s
  }

  /** A copy of `p` in front of copies of `p` is copies of `p`. */
  lemma DroppedCopies(s: string, p: string, m: nat)
    requires p != [] && |p| <= |s| && s[..|p|] == p && m <= |s| - |p|
    requires CopiesOf(s[|p|..][..|s| - |p| - m], p)
    ensures CopiesOf(s[..|s| - m], p)
  {
    var dropped := s[..|s| - m];
    assert dropped[..|p|] == p;
    assert dropped[|p|..] == s[|p|..][..|s| - |p| - m];
  }

  lemma SuffixOfSuffix<T>(s: seq<T>, k: nat, m: nat)
    requires k <= |s| && m <= |s| - k
    ensures s[k..][|s| - k - m..] == s[|s| - m..]
  {
  }

  predicate IsDigit(c: char) {
    '0' <= c <= '9'
  }

  predicate AllDigits(s: string) {
    forall i :: 0 <= i < |s| ==> IsDigit(s[i])
  }

  /** The decimal value of a string of digits, most significant first. */
  function DigitsValue(s: string): nat
    requires AllDigits(s)
  {
    if s == [] then 0 else 10 * DigitsValue(s[..|s| - 1]) + (s[|s| - 1] as int - '0' as int)
  }

  function DigitChar(d: nat): (c: char)
    requires d < 10
    ensures IsDigit(c) && c as int - '0' as int == d
  {
    ('0' as int + d) as char
  }

  /** `to_string` on an unsigned integer: decimal, no sign, no leading zeros. */
  function NatToString(n: nat): (s: string)
    ensures s != [] && AllDigits(s)
    ensures n > 0 ==> s[0] != '0'
    ensures |s| > 1 ==> s[0] != '0'
  {
    if n < 10 then [DigitChar(n)] else NatToString(n / 10) + [DigitChar(n % 10)]
  }

  /** The text after an optional leading '+'. */
  function Unsigned(s: string): (d: string)
    ensures |d| <= |s| && d == s[|s| - |d|..]
    ensures |d| < |s| <==> s != [] && s[0] == '+'
  {
    if s != [] && s[0] == '+' then s[1..] else s
  }

  /**
   * `str::parse::<u32>`: an optional leading '+', then at least one decimal
   * digit, and a value that fits in 32 bits; the value is that of the
   * digits. Anything else is an error.
   */
  function ParseU32(s: string): (r: Option<nat>)
    ensures r.Some? ==> r.value <= U32Max
    ensures s == [] ==> r == None
    ensures r.Some? ==> forall i :: 0 < i < |s| ==> IsDigit(s[i])
    ensures r.Some? <==> Unsigned(s) != [] && AllDigits(Unsigned(s)) && DigitsValue(Unsigned(s)) <= U32Max
    ensures r.Some? ==> AllDigits(Unsigned(s)) && r.value == DigitsValue(Unsigned(s))
  {
    var digits := Unsigned(s);
    if digits == [] || !AllDigits(digits) then None
    else if DigitsValue(digits) <= U32Max then Some(DigitsValue(digits))
    else None
  }

  /** `to_string` produces a digit string whose value is the number again. */
  lemma {:induction false} NatToStringDigits(n: nat)
    ensures NatToString(n) != [] && AllDigits(NatToString(n))
    ensures DigitsValue(NatToString(n)) == n
  {
    var s := NatToString(n);
    if n >= 10 {
      NatToStringDigits(n / 10);
      assert s[..|s| - 1] == NatToString(n / 10);
    }
  }

  /** Round trip: every u32 printed by `to_string` parses back to itself. */
  lemma ParseU32OfNatToString(n: nat)
    requires n <= U32Max
    ensures ParseU32(NatToString(n)) == Some(n)
  {
    NatToStringDigits(n);
  }

  /** Bytes in the UTF-8 encoding of one scalar value. */
  function Utf8Width(c: char): (w: nat)
    ensures 1 <= w <= 4
    ensures w == 1 <==> c as int < 0x80
  {
    var v := c as int;
    if v < 0x80 then 1 else if v < 0x800 then 2 else if v < 0x1_0000 then 3 else 4
  }

  /** `String::len`: the length of the UTF-8 encoding, in bytes. */
  function ByteLen(s: string): (n: nat)
    ensures |s| <= n <= 4 * |s|
  {
    if s == [] then 0 else Utf8Width(s[0]) + ByteLen(s[1..])
  }

  lemma {:induction false} ByteLenConcat(a: string, b: string)
    ensures ByteLen(a + b) == ByteLen(a) + ByteLen(b)
  {
    if a != [] {
      assert (a + b)[0] == a[0] && (a + b)[1..] == a[1..] + b;
      ByteLenConcat(a[1..], b);
    } else {
      assert a + b == b;
    }
  }
}
