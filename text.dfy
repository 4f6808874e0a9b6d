/**
 * Text primitives the string utilities lean on, written out with the
 * semantics of Rust's `str`: a string's length is its UTF-8 byte count,
 * whitespace is the Unicode White_Space property, and unsigned integers are
 * parsed and printed in decimal with a 64-bit range.
 */
module Text {
  import opened Wrappers

  /** A `u8`. */
  type Byte = b: int | 0 <= b < 256

  /** The largest value of a 64-bit `usize` / `u64`, plus one. */
  const WORD_RANGE: nat := 0x1_0000_0000_0000_0000

  /** The number of bytes the UTF-8 encoding of a character takes. */
  function Utf8Len(c: char): (n: nat)
    ensures 1 <= n <= 4
    ensures n == 1 <==> c as int < 0x80
  {
    if c as int < 0x80 then 1
    else if c as int < 0x800 then 2
    else if c as int < 0x1_0000 then 3
    else 4
  }

  /** A string's `len()`: its length in UTF-8 bytes. */
  function ByteLen(s: string): (n: nat)
    ensures n >= |s|
    ensures n == |s| <==> IsAscii(s)
  {
    if s == [] then 0 else Utf8Len(s[0]) + ByteLen(s[1..])
  }

  predicate IsAscii(s: string) {
    forall i :: 0 <= i < |s| ==> s[i] as int < 0x80
  }

  lemma {:induction false} ByteLenConcat(a: string, b: string)
    ensures ByteLen(a + b) == ByteLen(a) + ByteLen(b)
  {
    if a != [] {
      assert (a + b)[0] == a[0] && (a + b)[1..] == a[1..] + b;
      ByteLenConcat(a[1..], b);
    } else {
      assert a + b == b;
    }
  }

  /** The string `s` repeated `n` times. */
  function Repeat(s: string, n: nat): string {
    if n == 0 then [] else s + Repeat(s, n - 1)
  }

  /** `n` spaces. */
  function Spaces(n: nat): (r: string)
    ensures |r| == n && ByteLen(r) == n
    ensures forall i :: 0 <= i < n ==> r[i] == ' '
  {
    if n == 0 then [] else [' '] + Spaces(n - 1)
  }

  lemma {:induction false} RepeatLength(s: string, n: nat)
    ensures |Repeat(s, n)| == n * |s|
    ensures ByteLen(Repeat(s, n)) == n * ByteLen(s)
  {
    if n > 0 {
      RepeatLength(s, n - 1);
      ByteLenConcat(s, Repeat(s, n - 1));
      MulSucc(n - 1, |s|);
      MulSucc(n - 1, ByteLen(s));
    }
  }

  /** The `k`-th block of `|p|` characters of `t`, or nothing past the end of `t`. */
  function Block(t: string, p: string, k: nat): string {
    MulSucc(k, |p|);
    if (k + 1) * |p| <= |t| then t[k * |p|..(k + 1) * |p|] else []
  }

  /** `t` is `n` copies of `p` back to back. */
  predicate CopiesOf(t: string, p: string, n: nat) {
    |t| == n * |p| && forall k :: 0 <= k < n ==> Block(t, p, k) == p
  }

  /** `Repeat` puts its copies back to back, and nothing else. */
  lemma {:induction false} RepeatCopies(p: string, n: nat)
    ensures CopiesOf(Repeat(p, n), p, n)
  {
    RepeatLength(p, n);
    if n > 0 {
      var u := Repeat(p, n - 1);
      RepeatCopies(p, n - 1);
      forall k | 0 <= k < n
        ensures Block(p + u, p, k) == p
      {
        MulSucc(k, |p|);
        if k > 0 {
          MulSucc(k - 1, |p|);
          assert Block(u, p, k - 1) == p;
          if p != [] {
            assert (p + u)[k * |p|..(k + 1) * |p|] == u[(k - 1) * |p|..k * |p|];
          }
        }
      }
    }
  }

  lemma {:induction false} RepeatUnitLen(s: string, n: nat)
    ensures |s| == 1 ==> |Repeat(s, n)| == n
  {
    if n > 0 {
      RepeatUnitLen(s, n - 1);
    }
  }

  lemma {:induction false} RepeatUnitByteLen(s: string, n: nat)
    ensures ByteLen(s) == 1 ==> ByteLen(Repeat(s, n)) == n
  {
    if n > 0 {
      RepeatUnitByteLen(s, n - 1);
      ByteLenConcat(s, Repeat(s, n - 1));
    }
  }

  lemma MulSucc(k: nat, m: nat)
    ensures (k + 1) * m == m + k * m
  {
  }

  lemma {:induction false} RepeatSpace(n: nat)
    ensures Repeat(" ", n) == Spaces(n)
  {
    if n > 0 {
      RepeatSpace(n - 1);
    }
  }

  lemma {:induction false} SpacesSplit(a: nat, b: nat)
    ensures Spaces(a + b) == Spaces(a) + Spaces(b)
  {
    if a > 0 {
      SpacesSplit(a - 1, b);
    }
  }

  /** Rust's `char::is_whitespace`: the Unicode White_Space property. */
  predicate IsWhitespace(c: char) {
    ('\U{0009}' <= c <= '\U{000D}') || c == ' ' || c == '\U{0085}' || c == '\U{00A0}'
    || c == '\U{1680}' || ('\U{2000}' <= c <= '\U{200A}') || c == '\U{2028}' || c == '\U{2029}'
    || c == '\U{202F}' || c == '\U{205F}' || c == '\U{3000}'
  }

  /** `str::trim_end`: the string without its trailing whitespace. */
  function TrimEnd(s: string): (r: string)
    ensures r <= s
    ensures r == [] || !IsWhitespace(r[|r| - 1])
    ensures forall i :: |r| <= i < |s| ==> IsWhitespace(s[i])
  {
    if s != [] && IsWhitespace(s[|s| - 1]) then TrimEnd(s[..|s| - 1]) else s
  }

  /** Upper-casing of an ASCII letter; every other character is unchanged. */
  function AsciiUpper(c: char): char {
    if 'a' <= c <= 'z' then (c as int - 32) as char else c
  }

  predicate IsDigit(c: char) {
    '0' <= c <= '9'
  }

  predicate AllDigits(s: string) {
    forall i :: 0 <= i < |s| ==> IsDigit(s[i])
  }

  /** The value of a non-empty run of decimal digits. */
  function DigitsValue(s: string): nat
    requires AllDigits(s)
  {
    if s == [] then 0
    else
      assert IsDigit(s[|s| - 1]);
      10 * DigitsValue(s[..|s| - 1]) + (s[|s| - 1] as int - '0' as int)
  }

  /**
   * Rust's `usize::from_str` / `u64::from_str` on a 64-bit target: an optional
   * leading '+', then one or more decimal digits whose value fits in 64 bits.
   */
  function ParseUnsigned(s: string): (r: Option<nat>)
    ensures r.Some? ==> r.value < WORD_RANGE
    ensures s == [] ==> r.None?
  {
    var digits := if s != [] && s[0] == '+' then s[1..] else s;
    if digits == [] || !AllDigits(digits) then None
    else
      var v := DigitsValue(digits);
      if v < WORD_RANGE then Some(v) else None
  }

  /** The decimal representation of a natural number, as `format!("{}", n)` prints it. */
  function NatToString(n: nat): (r: string)
    ensures r != []
    ensures forall i :: 0 <= i < |r| ==> IsDigit(r[i])
    ensures r[0] != '+'
  {
    if n < 10 then [('0' as int + n) as char]
    else NatToString(n / 10) + [('0' as int + n % 10) as char]
  }

  lemma {:induction false} DigitsValueOfNatToString(n: nat)
    ensures DigitsValue(NatToString(n)) == n
  {
    if n >= 10 {
      var s := NatToString(n);
      assert s[..|s| - 1] == NatToString(n / 10);
      DigitsValueOfNatToString(n / 10);
    }
  }

  /** Printing a number and parsing it back gives the number. */
  lemma ParsePrinted(n: nat)
    requires n < WORD_RANGE
    ensures ParseUnsigned(NatToString(n)) == Some(n)
  {
    DigitsValueOfNatToString(n);
  }

  lemma MulAtLeast(m: int, k: int)
    requires m > 0 && k >= 1
    ensures m * k >= m
  {
  }

  lemma MulDistrib(m: int, a: int, b: int)
    ensures m * a - m * b == m * (a - b)
  {
  }

  /** Euclidean remainder is determined by any quotient-remainder decomposition. */
  lemma ModUnique(a: int, m: int, q: int, r: int)
    requires m > 0 && 0 <= r < m && a == m * q + r
    ensures a % m == r
  {
    var q', r' := a / m, a % m;
    assert a == m * q' + r';
    MulDistrib(m, q, q');
    MulDistrib(m, q', q);
    if q > q' {
      MulAtLeast(m, q - q');
    } else if q < q' {
      MulAtLeast(m, q' - q);
    }
  }

  /** Counting one more column wraps the remainder back to 0 at the modulus. */
  lemma ModStep(x: nat, m: nat)
    requires m > 0
    ensures (x + 1) % m == if x % m + 1 == m then 0 else x % m + 1
  {
    var q, r := x / m, x % m;
    assert x == m * q + r;
    if r + 1 == m {
      assert x + 1 == m * (q + 1) + 0;
      ModUnique(x + 1, m, q + 1, 0);
    } else {
      ModUnique(x + 1, m, q, r + 1);
    }
  }

  /** Advancing to the next multiple of the modulus leaves remainder 0. */
  lemma ModAlign(x: nat, m: nat)
    requires m > 0
    ensures (x + (m - x % m)) % m == 0
  {
    var q, r := x / m, x % m;
    assert x == m * q + r;
    assert x + (m - r) == m * (q + 1) + 0;
    ModUnique(x + (m - r), m, q + 1, 0);
  }
}
