/**
 * Constants, character classes, trimming and integer conversion shared by
 * every pass of the assembler (util.h, util.c).
 *
 * A C string is modelled as a `string` (seq<char>) holding the characters
 * before its terminator; reading the character at index |s| gives '\0'.
 */
module Util {

  datatype Option<T> = None | Some(value: T)

  // ---------------------------------------------------------------------
  // Constants (util.h)
  // ---------------------------------------------------------------------

  const LINE_SIZE: int := 81
  const LABEL_SIZE: int := 30
  const BASE_ADDRESS: int := 100
  const MAX_TOKENS_PER_LINE: int := 50
  const ASM_WORD_SIZE: int := 14
  const ZERO_CHAR: char := '.'
  const ONE_CHAR: char := '/'

  /** Symbol/line type bits. Placement: COD, DAT, STR; modifiers: EXT, ENT, DEF. */
  const SYM_COD: bv8 := 1
  const SYM_DAT: bv8 := 2
  const SYM_STR: bv8 := 4
  const SYM_EXT: bv8 := 8
  const SYM_ENT: bv8 := 16
  const SYM_DEF: bv8 := 32

  /** Operand classes of an opcode. */
  const OPTYPE_INS: int := 0
  const OPTYPE_UNI: int := 1
  const OPTYPE_BIN: int := 2
  const OPTYPE_JMP: int := 4

  // ---------------------------------------------------------------------
  // Character classes (util.c, and isspace from <ctype.h>)
  // ---------------------------------------------------------------------

  /** A decimal digit or a sign. */
  predicate IsNum(c: char) {
    c == '-' || c == '+' || ('0' <= c <= '9')
  }

  /** An ASCII letter. */
  predicate IsAlpha(c: char) {
    ('A' <= c <= 'Z') || ('a' <= c <= 'z')
  }

  /** A letter, a digit or a sign. */
  predicate IsAlphaNum(c: char) {
    IsAlpha(c) || IsNum(c)
  }

  /** The C locale's isspace. */
  predicate IsSpace(c: char) {
    c == ' ' || c == '\t' || c == '\n' || c == '\r' || c == '\U{B}' || c == '\U{C}'
  }

  predicate IsDigit(c: char) {
    '0' <= c <= '9'
  }

  /** The character a C routine reads at index i of s: '\0' at and past the terminator. */
  function CharAt(s: string, i: int): char {
    if 0 <= i < |s| then s[i] else '\0'
  }

  // ---------------------------------------------------------------------
  // Trimming
  // ---------------------------------------------------------------------

  /** Index of the first non-whitespace character of s at or after i, or |s|. */
  function FirstNonSpace(s: string, i: nat): (k: nat)
    requires i <= |s|
    ensures i <= k <= |s|
    ensures forall j :: i <= j < k ==> IsSpace(s[j])
    ensures k < |s| ==> !IsSpace(s[k])
    decreases |s| - i
  {
    if i == |s| || !IsSpace(s[i]) then i else FirstNonSpace(s, i + 1)
  }

  /** What trim_left points at: the suffix from the first non-whitespace character. */
  function TrimmedLeft(s: string): string {
    s[FirstNonSpace(s, 0)..]
  }

  /** trim_left: advances over leading whitespace; the string itself is not changed. */
  method TrimLeft(s: string) returns (r: string)
    ensures r == TrimmedLeft(s)
    ensures |r| <= |s| && r == s[|s| - |r|..]
    ensures forall j :: 0 <= j < |s| - |r| ==> IsSpace(s[j])
    ensures |r| > 0 ==> !IsSpace(r[0])
  {
    var i := 0;
    while i < |s|
      invariant 0 <= i <= |s|
      invariant forall j :: 0 <= j < i ==> IsSpace(s[j])
    {
      if !IsSpace(s[i]) {
        break;
      }
      i := i + 1;
    }
    assert FirstNonSpace(s, 0) == i by { FirstNonSpaceIs(s, 0, i); }
    r := s[i..];
  }

  /** FirstNonSpace is determined by its contract. */
  lemma {:induction false} FirstNonSpaceIs(s: string, i: nat, k: nat)
    requires i <= k <= |s|
    requires forall j :: i <= j < k ==> IsSpace(s[j])
    requires k < |s| ==> !IsSpace(s[k])
    ensures FirstNonSpace(s, i) == k
    decreases k - i
  {
    if i < k {
      FirstNonSpaceIs(s, i + 1, k);
    }
  }

  /** Index of the last non-whitespace character among s[..n], or -1. */
  function LastNonSpace(s: string, n: nat): (k: int)
    requires n <= |s|
    ensures -1 <= k < n
    ensures forall j :: k < j < n ==> IsSpace(s[j])
    ensures k >= 0 ==> !IsSpace(s[k])
    decreases n
  {
    if n == 0 then -1 else if !IsSpace(s[n - 1]) then n - 1 else LastNonSpace(s, n - 1)
  }

  /**
   * The string trim_right(s, len) leaves: cut after the last non-whitespace
   * character among the first len characters. If none is found, or the scan
   * starts at or past the terminator, the string is unchanged.
   */
  function TrimmedRight(s: string, len: int): string {
    if len > |s| || len <= 0 then s
    else
      var k := LastNonSpace(s, len);
      if k < 0 then s else s[..k + 1]
  }

  /**
   * trim_right(str, len). The scan reads str[len-1] down to str[0]; the bytes
   * after the terminator are `rest` (the remainder of the caller's buffer),
   * and whatever they hold, the resulting string is TrimmedRight(s, len).
   */
  method TrimRight(s: string, rest: seq<char>, len: int) returns (r: string)
    requires len <= |s| + 1 + |rest|
    ensures r == TrimmedRight(s, len)
    ensures len <= |s| ==> forall j :: |r| <= j < len ==> IsSpace(s[j])
    ensures 0 <= len <= |s| && (exists j :: 0 <= j < len && !IsSpace(s[j])) ==>
      0 < |r| <= len && r == s[..|r|] && !IsSpace(r[|r| - 1])
    ensures (forall j :: 0 <= j < len && j < |s| ==> IsSpace(s[j])) ==> r == s
  {
    var buf := s + ['\0'] + rest;
    r := s;
    var i := len - 1;
    while i >= 0
      invariant i < len
      invariant i >= -1 || i == len - 1
      invariant forall j :: i < j < len ==> IsSpace(buf[j])
    {
      if !IsSpace(buf[i]) {
        if i < |s| {
          r := s[..i + 1];
        }
        break;
      }
      i := i - 1;
    }
    if 0 < len <= |s| {
      assert i < |s|;
      assert forall j :: i < j < len ==> buf[j] == s[j];
      LastNonSpaceIs(s, len, i);
    } else if len > |s| {
      assert buf[|s|] == '\0';
    }
  }

  /** LastNonSpace is determined by its contract. */
  lemma {:induction false} LastNonSpaceIs(s: string, n: nat, k: int)
    requires n <= |s| && -1 <= k < n
    requires forall j :: k < j < n ==> IsSpace(s[j])
    requires k >= 0 ==> !IsSpace(s[k])
    ensures LastNonSpace(s, n) == k
    decreases n
  {
    if k < n - 1 {
      LastNonSpaceIs(s, n - 1, k);
    }
  }

  /** What trim returns: trim_right over the whole string, then trim_left. */
  function Trimmed(s: string): string {
    TrimmedLeft(TrimmedRight(s, |s|))
  }

  /** trim */
  method Trim(s: string) returns (r: string)
    ensures r == Trimmed(s)
  {
    var right := TrimRight(s, [], |s|);
    r := TrimLeft(right);
  }

  /** A trimmed string has no whitespace at either end, and is a piece of the original. */
  lemma TrimmedHasNoOuterSpace(s: string)
    ensures var t := Trimmed(s);
      && (|t| > 0 ==> !IsSpace(t[0]) && !IsSpace(t[|t| - 1]))
      && exists a: nat, b: nat :: a <= b <= |s| && t == s[a..b]
  {
    var right := TrimmedRight(s, |s|);
    var k := LastNonSpace(s, |s|);
    var f := FirstNonSpace(right, 0);
    assert right == if k < 0 then s else s[..k + 1];
    var t := right[f..];
    assert right == s[..|right|];
    assert t == s[f..|right|];
    if |t| > 0 {
      assert !IsSpace(t[0]);
      // a non-whitespace character exists, so the right trim cut after it
      assert k >= 0;
      assert t[|t| - 1] == s[k];
    }
  }

  /** A string without outer whitespace is its own trim. */
  lemma TrimmedIdentity(s: string)
    requires |s| > 0 ==> !IsSpace(s[0]) && !IsSpace(s[|s| - 1])
    ensures Trimmed(s) == s
  {
    if |s| > 0 {
      LastNonSpaceIs(s, |s|, |s| - 1);
      FirstNonSpaceIs(s, 0, 0);
    }
  }

  // ---------------------------------------------------------------------
  // Decimal conversion
  // ---------------------------------------------------------------------

  function DigitValue(c: char): int
    requires IsDigit(c)
  {
    c as int - '0' as int
  }

  /** The digit characters of s, in order. */
  function DigitsOf(s: string): (d: string)
    ensures forall j :: 0 <= j < |d| ==> IsDigit(d[j])
  {
    if s == [] then []
    else if IsDigit(s[|s| - 1]) then DigitsOf(s[..|s| - 1]) + [s[|s| - 1]]
    else DigitsOf(s[..|s| - 1])
  }

  /** The value of a string of decimal digits, most significant first. */
  function Decimal(d: string): nat
    requires forall j :: 0 <= j < |d| ==> IsDigit(d[j])
  {
    if d == [] then 0 else Decimal(d[..|d| - 1]) * 10 + DigitValue(d[|d| - 1])
  }

  /** The value str_to_int returns: the digit characters read as one number, negated iff s starts with '-'. */
  function StrToIntValue(s: string): int {
    var v: int := Decimal(DigitsOf(s));
    if |s| > 0 && s[0] == '-' then -v else v
  }

  /** str_to_int */
  method StrToInt(s: string) returns (num: int)
    ensures num == StrToIntValue(s)
  {
    num := 0;
    var i := 0;
    while i < |s|
      invariant 0 <= i <= |s|
      invariant num == Decimal(DigitsOf(s[..i]))
    {
      assert s[..i + 1][..i] == s[..i];
      if '0' <= s[i] <= '9' {
        num := num * 10;
        num := num + (s[i] as int - '0' as int);
      }
      i := i + 1;
    }
    assert s[..|s|] == s;
    if |s| > 0 && s[0] == '-' {
      num := num * -1;
    }
  }

  function DigitChar(n: int): (c: char)
    requires 0 <= n < 10
    ensures IsDigit(c) && DigitValue(c) == n
  {
    ('0' as int + n) as char
  }

  /** The decimal text printf's %d gives for n. */
  function DecimalString(n: int): (s: string)
    ensures |s| > 0
    decreases if n < 0 then -n + 1 else n
  {
    if n < 0 then ['-'] + DecimalString(-n)
    else if n < 10 then [DigitChar(n)]
    else DecimalString(n / 10) + [DigitChar(n % 10)]
  }

  /** The digits of the %d text of a natural number read back as that number. */
  lemma {:induction false} DecimalDigits(n: nat)
    ensures DigitsOf(DecimalString(n)) == DecimalString(n)
    ensures Decimal(DigitsOf(DecimalString(n))) == n
  {
    var s := DecimalString(n);
    if n < 10 {
      assert s[..0] == [];
    } else {
      DecimalDigits(n / 10);
      var p := DecimalString(n / 10);
      assert s[..|s| - 1] == p;
      assert s == p + [DigitChar(n % 10)];
    }
  }

  /** str_to_int inverts printf's %d. */
  lemma DecimalRoundTrip(n: int)
    ensures StrToIntValue(DecimalString(n)) == n
  {
    if n < 0 {
      var s := DecimalString(n);
      var p := DecimalString(-n);
      assert s == ['-'] + p;
      DigitsOfSkipsSign(p);
      DecimalDigits(-n);
      assert DigitsOf(s) == DigitsOf(p);
    } else {
      DecimalDigits(n);
      var s := DecimalString(n);
      assert s[0] != '-' by {
        if n >= 10 { assert s == DecimalString(n / 10) + [DigitChar(n % 10)]; FirstDigit(n / 10); }
      }
    }
  }

  lemma {:induction false} FirstDigit(n: nat)
    ensures IsDigit(DecimalString(n)[0])
  {
    if n >= 10 {
      FirstDigit(n / 10);
    }
  }

  lemma {:induction false} DigitsOfSkipsSign(p: string)
    ensures DigitsOf(['-'] + p) == DigitsOf(p)
    decreases |p|
  {
    if p != [] {
      var s := ['-'] + p;
      assert s[..|s| - 1] == ['-'] + p[..|p| - 1];
      DigitsOfSkipsSign(p[..|p| - 1]);
    } else {
      assert (['-'] + p)[..0] == [];
    }
  }

  // ---------------------------------------------------------------------
  // Arithmetic helpers
  // ---------------------------------------------------------------------

  lemma {:induction false} MulAtLeast(a: nat, d: nat)
    requires a >= 1
    ensures a * d >= d
  {
    if a > 1 {
      MulAtLeast(a - 1, d);
      assert a * d == (a - 1) * d + d;
    }
  }

  /** Quotient and remainder are unique. */
  lemma ModUnique(x: int, d: int, q: int, r: int)
    requires d > 0 && 0 <= r < d && x == q * d + r
    ensures x % d == r && x / d == q
  {
    var q0, r0 := x / d, x % d;
    assert x == q0 * d + r0;
    var a := q - q0;
    assert a * d == r0 - r by { assert q * d - q0 * d == (q - q0) * d; }
    if a >= 1 {
      MulAtLeast(a, d);
    }
  }

  /** x modulo d by repeated subtraction. */
  function Mod(x: nat, d: nat): (r: nat)
    requires d > 0
    ensures r < d
    decreases x
  {
    if x < d then x else Mod(x - d, d)
  }

  lemma {:induction false} ModIsRemainder(x: nat, d: nat)
    requires d > 0
    ensures Mod(x, d) == x % d
    decreases x
  {
    if x < d {
      ModUnique(x, d, 0, x);
    } else {
      ModIsRemainder(x - d, d);
      var q, r := (x - d) / d, (x - d) % d;
      assert (q + 1) * d == q * d + d;
      ModUnique(x, d, q + 1, r);
    }
  }

  /** The parts written one after the other. */
  function Concat(parts: seq<string>): string {
    if parts == [] then [] else Concat(parts[..|parts| - 1]) + parts[|parts| - 1]
  }

  /** Writing two runs of parts is writing the first, then the second. */
  lemma {:induction false} ConcatAppend(a: seq<string>, b: seq<string>)
    ensures Concat(a + b) == Concat(a) + Concat(b)
    decreases |b|
  {
    if b == [] {
      assert a + b == a;
    } else {
      var b', x := b[..|b| - 1], b[|b| - 1];
      assert (a + b)[..|a + b| - 1] == a + b';
      ConcatAppend(a, b');
    }
  }

  /** f applied to each element of xs, in order. */
  lemma ConcatSnoc(xs: seq<string>, t: string)
    ensures Concat(xs + [t]) == Concat(xs) + t
  {
    assert (xs + [t])[..|xs|] == xs;
  }

  function Mapped<T>(f: T -> string, xs: seq<T>): (r: seq<string>)
    ensures |r| == |xs|
  {
    seq(|xs|, k requires 0 <= k < |xs| => f(xs[k]))
  }

  /** One more element gives one more part. */
  lemma MappedSnoc<T>(f: T -> string, xs: seq<T>, x: T)
    ensures Mapped(f, xs + [x]) == Mapped(f, xs) + [f(x)]
  {
  }

  /** One more element writes one more part. */
  lemma ConcatMappedSnoc<T>(f: T -> string, xs: seq<T>, x: T)
    ensures Concat(Mapped(f, xs + [x])) == Concat(Mapped(f, xs)) + f(x)
  {
    assert Mapped(f, xs + [x])[..|xs|] == Mapped(f, xs);
  }

  /** The parts of two runs are the parts of the first, then those of the second. */
  lemma ConcatMappedAppend<T>(f: T -> string, a: seq<T>, b: seq<T>)
    ensures Concat(Mapped(f, a + b)) == Concat(Mapped(f, a)) + Concat(Mapped(f, b))
  {
    assert Mapped(f, a + b) == Mapped(f, a) + Mapped(f, b);
    ConcatAppend(Mapped(f, a), Mapped(f, b));
  }
}
