/**
 * The bit level of the encoder (assemble.c): int_to_bin, which writes a
 * number into a caller's buffer least significant bit first and in two's
 * complement when it is negative, and print_word, which writes a 14-cell
 * word most significant cell first with ONE_CHAR for a set cell and
 * ZERO_CHAR for a clear one.
 *
 * A buffer is a sequence of cells. The source's cells are chars that hold
 * 0 or 1, except that the carry loop of int_to_bin can leave a 2 in the top
 * cell; the cells are modelled as unbounded integers so that this case is
 * kept rather than excluded.
 */
module Binary {
  import opened Util

  function Pow2(n: nat): (p: int)
    ensures p >= 1
  {
    if n == 0 then 1 else 2 * Pow2(n - 1)
  }

  function Abs(x: int): nat {
    if x < 0 then -x else x
  }

  /** The cells read as an unsigned number, cell 0 least significant. */
  function Value(b: seq<int>): int {
    if b == [] then 0 else Value(b[..|b| - 1]) + Pow2(|b| - 1) * b[|b| - 1]
  }

  /** The cells read as a two's complement number. */
  function Signed(b: seq<int>): int
    requires |b| > 0
  {
    Value(b) - if b[|b| - 1] != 0 then Pow2(|b|) else 0
  }

  /** Every cell is 0 or 1. */
  predicate IsBits(b: seq<int>) {
    forall i :: 0 <= i < |b| ==> 0 <= b[i] <= 1
  }

  function Zeros(n: nat): (z: seq<int>)
    ensures |z| == n && forall i :: 0 <= i < n ==> z[i] == 0
  {
    seq(n, _ => 0)
  }

  // ---------------------------------------------------------------------
  // int_to_bin, loop by loop, on the window b[at..at + bits)
  // ---------------------------------------------------------------------

  /** The division loop: while m > 0 and k < bits, cell at + k gets m % 2 and m is halved. */
  function Digits(m: nat, b: seq<int>, at: nat, bits: nat, k: nat): (r: seq<int>)
    requires at + bits <= |b| && k <= bits
    ensures |r| == |b|
    ensures forall i :: 0 <= i < |b| && !(at + k <= i < at + bits) ==> r[i] == b[i]
    decreases bits - k
  {
    if m > 0 && k < bits then Digits(m / 2, b[at + k := m % 2], at, bits, k + 1) else b
  }

  /** C's logical not on a cell. */
  function Not(c: int): int {
    if c != 0 then 0 else 1
  }

  /** The flip loop over the window, from cell i on. */
  function Flipped(b: seq<int>, at: nat, bits: nat, i: nat): (r: seq<int>)
    requires at + bits <= |b| && i <= bits
    ensures |r| == |b|
    ensures forall j :: 0 <= j < |b| && !(at + i <= j < at + bits) ==> r[j] == b[j]
    ensures forall j :: at + i <= j < at + bits ==> r[j] == Not(b[j])
    decreases bits - i
  {
    if i < bits then Flipped(b[at + i := Not(b[at + i])], at, bits, i + 1) else b
  }

  /** The carry loop: while cell i is not the top one and exceeds 1, it becomes 0 and cell i + 1 grows by one. */
  function Carried(b: seq<int>, at: nat, bits: nat, i: nat): (r: seq<int>)
    requires at + bits <= |b| && i < bits
    ensures |r| == |b|
    ensures forall j :: 0 <= j < |b| && !(at <= j < at + bits) ==> r[j] == b[j]
    decreases bits - i
  {
    if i < bits - 1 && b[at + i] > 1 then
      Carried(b[at + i := 0][at + i + 1 := b[at + i + 1] + 1], at, bits, i + 1)
    else b
  }

  /**
   * int_to_bin(num, bits, b + at): the magnitude's low bits go into the
   * window; for a negative num every cell of the window is then flipped
   * and one is added with carry. Cells outside the window are untouched.
   */
  function IntToBinAt(num: int, bits: nat, b: seq<int>, at: nat): (r: seq<int>)
    requires 0 < bits && at + bits <= |b|
    ensures |r| == |b|
    ensures forall i :: 0 <= i < |b| && !(at <= i < at + bits) ==> r[i] == b[i]
  {
    var d := Digits(Abs(num), b, at, bits, 0);
    if num < 0 then
      var f := Flipped(d, at, bits, 0);
      Carried(f[at := f[at] + 1], at, bits, 0)
    else d
  }

  /** The cells int_to_bin writes into a zeroed buffer of width bits. */
  function Encoded(num: int, bits: nat): (r: seq<int>)
    requires bits > 0
    ensures |r| == bits
  {
    IntToBinAt(num, bits, Zeros(bits), 0)
  }

  /** int_to_bin */
  method IntToBin(num: int, bits: nat, bin: array<int>, at: nat)
    requires 0 < bits && at + bits <= bin.Length
    modifies bin
    ensures bin[..] == IntToBinAt(num, bits, old(bin[..]), at)
  {
    var neg := num < 0;
    var m: nat := if neg then -num else num;
    DivideInto(m, bits, bin, at);
    if neg {
      FlipWindow(bits, bin, at);
      ghost var f := bin[..];
      bin[at] := bin[at] + 1;
      assert bin[..] == f[at := f[at] + 1];
      CarryWindow(bits, bin, at);
    }
  }

  /** The division loop of int_to_bin. */
  method DivideInto(m0: nat, bits: nat, bin: array<int>, at: nat)
    requires at + bits <= bin.Length
    modifies bin
    ensures bin[..] == Digits(m0, old(bin[..]), at, bits, 0)
  {
    var m := m0;
    var k := 0;
    while m > 0 && k < bits
      invariant 0 <= k <= bits
      invariant Digits(m, bin[..], at, bits, k) == Digits(m0, old(bin[..]), at, bits, 0)
      decreases bits - k
    {
      ghost var before := bin[..];
      bin[at + k] := m % 2;
      assert bin[..] == before[at + k := m % 2];
      m := m / 2;
      k := k + 1;
    }
  }

  /** The flip loop of int_to_bin. */
  method FlipWindow(bits: nat, bin: array<int>, at: nat)
    requires at + bits <= bin.Length
    modifies bin
    ensures bin[..] == Flipped(old(bin[..]), at, bits, 0)
  {
    var i := 0;
    while i < bits
      invariant 0 <= i <= bits
      invariant Flipped(bin[..], at, bits, i) == Flipped(old(bin[..]), at, bits, 0)
    {
      ghost var before := bin[..];
      bin[at + i] := if bin[at + i] != 0 then 0 else 1;
      assert bin[..] == before[at + i := Not(before[at + i])];
      i := i + 1;
    }
  }

  /** The carry loop of int_to_bin. */
  method CarryWindow(bits: nat, bin: array<int>, at: nat)
    requires 0 < bits && at + bits <= bin.Length
    modifies bin
    ensures bin[..] == Carried(old(bin[..]), at, bits, 0)
  {
    var i := 0;
    while i < bits - 1 && bin[at + i] > 1
      invariant 0 <= i < bits
      invariant Carried(bin[..], at, bits, i) == Carried(old(bin[..]), at, bits, 0)
    {
      ghost var before := bin[..];
      bin[at + i] := 0;
      bin[at + i + 1] := bin[at + i + 1] + 1;
      assert bin[..] == before[at + i := 0][at + i + 1 := before[at + i + 1] + 1];
      i := i + 1;
    }
  }

  // ---------------------------------------------------------------------
  // Locality: what int_to_bin leaves in its window depends on the window only
  // ---------------------------------------------------------------------

  lemma {:induction false} DigitsLocal(m: nat, b: seq<int>, at: nat, bits: nat, k: nat)
    requires at + bits <= |b| && k <= bits
    ensures Digits(m, b, at, bits, k)[at..at + bits] == Digits(m, b[at..at + bits], 0, bits, k)
    decreases bits - k
  {
    if m > 0 && k < bits {
      assert b[at + k := m % 2][at..at + bits] == b[at..at + bits][k := m % 2];
      DigitsLocal(m / 2, b[at + k := m % 2], at, bits, k + 1);
    }
  }

  lemma {:induction false} FlippedLocal(b: seq<int>, at: nat, bits: nat, i: nat)
    requires at + bits <= |b| && i <= bits
    ensures Flipped(b, at, bits, i)[at..at + bits] == Flipped(b[at..at + bits], 0, bits, i)
    decreases bits - i
  {
    if i < bits {
      assert b[at + i := Not(b[at + i])][at..at + bits] == b[at..at + bits][i := Not(b[at + i])];
      FlippedLocal(b[at + i := Not(b[at + i])], at, bits, i + 1);
    }
  }

  lemma {:induction false} CarriedLocal(b: seq<int>, at: nat, bits: nat, i: nat)
    requires at + bits <= |b| && i < bits
    ensures Carried(b, at, bits, i)[at..at + bits] == Carried(b[at..at + bits], 0, bits, i)
    decreases bits - i
  {
    if i < bits - 1 && b[at + i] > 1 {
      var b' := b[at + i := 0][at + i + 1 := b[at + i + 1] + 1];
      assert b'[at..at + bits] == b[at..at + bits][i := 0][i + 1 := b[at + i + 1] + 1];
      CarriedLocal(b', at, bits, i + 1);
    }
  }

  /** int_to_bin on a window behaves as int_to_bin on a buffer holding just that window. */
  lemma IntToBinLocal(num: int, bits: nat, b: seq<int>, at: nat)
    requires 0 < bits && at + bits <= |b|
    ensures IntToBinAt(num, bits, b, at)[at..at + bits] == IntToBinAt(num, bits, b[at..at + bits], 0)
  {
    var w := b[at..at + bits];
    var d := Digits(Abs(num), b, at, bits, 0);
    DigitsLocal(Abs(num), b, at, bits, 0);
    assert d[at..at + bits] == Digits(Abs(num), w, 0, bits, 0);
    if num < 0 {
      var f := Flipped(d, at, bits, 0);
      FlippedLocal(d, at, bits, 0);
      var dw := Digits(Abs(num), w, 0, bits, 0);
      assert f[at..at + bits] == Flipped(dw, 0, bits, 0);
      var fw := Flipped(dw, 0, bits, 0);
      assert f[at := f[at] + 1][at..at + bits] == fw[0 := fw[0] + 1];
      CarriedLocal(f[at := f[at] + 1], at, bits, 0);
    }
  }

  /** A window of zeros receives exactly Encoded(num, bits). */
  lemma IntToBinZeroWindow(num: int, bits: nat, b: seq<int>, at: nat)
    requires 0 < bits && at + bits <= |b|
    requires forall i :: at <= i < at + bits ==> b[i] == 0
    ensures IntToBinAt(num, bits, b, at)[at..at + bits] == Encoded(num, bits)
  {
    IntToBinLocal(num, bits, b, at);
    assert b[at..at + bits] == Zeros(bits);
  }

  // ---------------------------------------------------------------------
  // What the cells mean
  // ---------------------------------------------------------------------

  /** Changing one cell changes the value by that cell's weight times the difference. */
  lemma {:induction false} ValueUpdate(b: seq<int>, k: nat, x: int)
    requires k < |b|
    ensures Value(b[k := x]) == Value(b) + Pow2(k) * (x - b[k])
  {
    var n := |b|;
    if k == n - 1 {
      assert b[k := x][..n - 1] == b[..n - 1];
    } else {
      assert b[k := x][..n - 1] == b[..n - 1][k := x];
      ValueUpdate(b[..n - 1], k, x);
    }
  }

  /** Non-negative cells give a value at least the top cell's weight. */
  lemma {:induction false} ValueNonNegative(b: seq<int>)
    requires forall i :: 0 <= i < |b| ==> b[i] >= 0
    ensures Value(b) >= 0
    ensures |b| > 0 ==> Value(b) >= Pow2(|b| - 1) * b[|b| - 1]
  {
    if b != [] {
      ValueNonNegative(b[..|b| - 1]);
    }
  }

  /** Cells of 0 and 1 read as a number below 2^|b|. */
  lemma {:induction false} ValueBounds(b: seq<int>)
    requires IsBits(b)
    ensures 0 <= Value(b) < Pow2(|b|)
  {
    if b != [] {
      ValueBounds(b[..|b| - 1]);
    }
  }

  /** Flipping every cell of a bit buffer gives 2^|b| - 1 minus its value. */
  lemma {:induction false} ValueFlip(b: seq<int>, c: seq<int>)
    requires |b| == |c| && IsBits(b)
    requires forall i :: 0 <= i < |b| ==> c[i] == 1 - b[i]
    ensures Value(c) == Pow2(|b|) - 1 - Value(b)
  {
    if b != [] {
      ValueFlip(b[..|b| - 1], c[..|c| - 1]);
    }
  }

  /** m % 2^j, split into its lowest bit and the rest. */
  lemma HalfMod(m: nat, j: nat)
    requires j > 0
    ensures m % Pow2(j) == m % 2 + 2 * ((m / 2) % Pow2(j - 1))
  {
    var p := Pow2(j - 1);
    var q, r := (m / 2) / p, (m / 2) % p;
    assert m == q * Pow2(j) + (2 * r + m % 2) by {
      assert m / 2 == q * p + r;
      assert m == 2 * (m / 2) + m % 2;
    }
    ModUnique(m, Pow2(j), q, 2 * r + m % 2);
  }

  lemma Distrib(p: int, a: int, c: int)
    ensures p * a + (2 * p) * c == p * (a + 2 * c)
  {
  }

  /** The division loop on a window whose unwritten cells are zero. */
  lemma {:induction false} DigitsValue(m: nat, b: seq<int>, k: nat)
    requires k <= |b|
    requires forall i :: k <= i < |b| ==> b[i] == 0
    ensures Value(Digits(m, b, 0, |b|, k)) == Value(b) + Pow2(k) * (m % Pow2(|b| - k))
    ensures IsBits(b) ==> IsBits(Digits(m, b, 0, |b|, k))
    decreases |b| - k
  {
    var n := |b|;
    if m > 0 && k < n {
      var b' := b[k := m % 2];
      var p, lo, hi := Pow2(k), m % 2, (m / 2) % Pow2(n - k - 1);
      ValueUpdate(b, k, lo);
      assert Value(b') == Value(b) + p * lo;
      DigitsValue(m / 2, b', k + 1);
      assert Digits(m, b, 0, n, k) == Digits(m / 2, b', 0, n, k + 1);
      assert Value(Digits(m, b, 0, n, k)) == Value(b') + Pow2(k + 1) * hi;
      assert Pow2(k + 1) == 2 * p;
      HalfMod(m, n - k);
      assert m % Pow2(n - k) == lo + 2 * hi;
      Distrib(p, lo, hi);
    } else if m == 0 {
      assert m % Pow2(n - k) == 0;
    } else {
      assert Pow2(n - k) == 1;
    }
  }

  /** The carry loop keeps the value, and leaves every cell 0 or 1 except that the top one may be 2. */
  lemma {:induction false} CarriedValue(b: seq<int>, i: nat)
    requires i < |b|
    requires forall j :: 0 <= j < |b| && j != i ==> 0 <= b[j] <= 1
    requires 0 <= b[i] <= 2
    ensures var r := Carried(b, 0, |b|, i);
      && Value(r) == Value(b)
      && (forall j :: 0 <= j < |b| - 1 ==> 0 <= r[j] <= 1)
      && 0 <= r[|b| - 1] <= 2
    decreases |b| - i
  {
    var n := |b|;
    if i < n - 1 && b[i] > 1 {
      var b1 := b[i := 0];
      var b' := b1[i + 1 := b[i + 1] + 1];
      var p := Pow2(i);
      ValueUpdate(b, i, 0);
      assert Value(b1) == Value(b) - 2 * p by {
        assert b[i] == 2;
      }
      ValueUpdate(b1, i + 1, b[i + 1] + 1);
      assert Pow2(i + 1) == 2 * p;
      assert Value(b') == Value(b1) + 2 * p;
      assert Carried(b, 0, n, i) == Carried(b', 0, n, i + 1);
      CarriedValue(b', i + 1);
    }
  }

  /** -a modulo p, for an a that p does not divide. */
  lemma NegMod(a: int, p: int)
    requires a >= 0 && p > 0 && a % p != 0
    ensures (-a) % p == p - a % p
  {
    var q, r := a / p, a % p;
    assert -a == (-q - 1) * p + (p - r);
    ModUnique(-a, p, -q - 1, p - r);
  }

  /**
   * Cells of 0 and 1 under a top cell of at most 2: below 2^|r| they are
   * all bits, and at exactly 2^|r| the top cell is 2 and the rest read 0.
   */
  lemma TopCell(r: seq<int>)
    requires |r| > 0
    requires forall j :: 0 <= j < |r| - 1 ==> 0 <= r[j] <= 1
    requires 0 <= r[|r| - 1] <= 2
    ensures Value(r) < Pow2(|r|) ==> IsBits(r)
    ensures Value(r) == Pow2(|r|) ==> r[|r| - 1] == 2 && Value(r[..|r| - 1]) == 0
  {
    var n := |r|;
    var pre := r[..n - 1];
    assert IsBits(pre);
    ValueBounds(pre);
    ValueTop(r);
  }

  /** The value of a buffer whose top cell is 0, 1 or 2, from the value of the cells below it. */
  lemma ValueTop(r: seq<int>)
    requires |r| > 0 && 0 <= r[|r| - 1] <= 2
    ensures Pow2(|r|) == 2 * Pow2(|r| - 1)
    ensures Value(r) == Value(r[..|r| - 1]) + (if r[|r| - 1] == 0 then 0 else if r[|r| - 1] == 1 then Pow2(|r| - 1) else 2 * Pow2(|r| - 1))
  {
    var t, h := r[|r| - 1], Pow2(|r| - 1);
    assert Value(r) == Value(r[..|r| - 1]) + h * t;
    if t == 0 {
      assert h * t == 0;
    } else if t == 1 {
      assert h * t == h;
    } else {
      assert h * t == h + h;
    }
  }

  /** Bits that read as 0 are all 0. */
  lemma ZeroBits(b: seq<int>)
    requires IsBits(b) && Value(b) == 0
    ensures forall j :: 0 <= j < |b| ==> b[j] == 0
  {
    forall j | 0 <= j < |b|
      ensures b[j] == 0
    {
      if b[j] != 0 {
        ValueUpdate(b, j, 0);
        assert Value(b[j := 0]) == -Pow2(j);
        ValueBounds(b[j := 0]);
      }
    }
  }

  lemma {:induction false} ValueZeros(n: nat)
    ensures Value(Zeros(n)) == 0
  {
    if n > 0 {
      assert Zeros(n)[..n - 1] == Zeros(n - 1);
      ValueZeros(n - 1);
    }
  }

  /** The division loop on a zeroed buffer leaves the magnitude modulo 2^bits, as bits. */
  lemma DigitsOnZeros(m: nat, bits: nat)
    ensures IsBits(Digits(m, Zeros(bits), 0, bits, 0))
    ensures Value(Digits(m, Zeros(bits), 0, bits, 0)) == m % Pow2(bits)
  {
    DigitsValue(m, Zeros(bits), 0);
    ValueZeros(bits);
  }

  /** For a negative num, int_to_bin into zeros leaves 2^bits minus the magnitude's low bits, top cell at most 2. */
  lemma NegativeCells(num: int, bits: nat)
    requires bits > 0 && num < 0
    ensures var r := Encoded(num, bits);
      && Value(r) == Pow2(bits) - Abs(num) % Pow2(bits)
      && (forall j :: 0 <= j < bits - 1 ==> 0 <= r[j] <= 1)
      && 0 <= r[bits - 1] <= 2
  {
    var d := Digits(Abs(num), Zeros(bits), 0, bits, 0);
    var f := Flipped(d, 0, bits, 0);
    var g := f[0 := f[0] + 1];
    NegativeEncoded(num, bits);
    DigitsOnZeros(Abs(num), bits);
    FlipThenIncrement(d, f);
    CarriedValue(g, 0);
  }

  /** int_to_bin of a negative number into zeros: the division loop, the flip, one added to the first cell, the carry loop. */
  lemma NegativeEncoded(num: int, bits: nat)
    requires bits > 0 && num < 0
    ensures var f := Flipped(Digits(Abs(num), Zeros(bits), 0, bits, 0), 0, bits, 0);
      Encoded(num, bits) == Carried(f[0 := f[0] + 1], 0, bits, 0)
  {
  }

  /** Flipping a bit buffer and adding one to its first cell gives 2^|d| minus its value, first cell 1 or 2. */
  lemma FlipThenIncrement(d: seq<int>, f: seq<int>)
    requires |d| > 0 && IsBits(d) && f == Flipped(d, 0, |d|, 0)
    ensures var g := f[0 := f[0] + 1];
      && Value(g) == Pow2(|d|) - Value(d)
      && (forall j :: 0 < j < |g| ==> 0 <= g[j] <= 1)
      && 1 <= g[0] <= 2
  {
    assert forall j :: 0 <= j < |d| ==> f[j] == 1 - d[j];
    ValueFlip(d, f);
    ValueUpdate(f, 0, f[0] + 1);
  }

  /**
   * int_to_bin into a zeroed buffer writes num modulo 2^bits as cells of 0
   * and 1 — except when num is negative and its magnitude is a multiple of
   * 2^bits: then every cell below the top is 0 and the top cell is 2.
   */
  lemma EncodedValue(num: int, bits: nat)
    requires bits > 0
    ensures var r := Encoded(num, bits);
      (num >= 0 || Abs(num) % Pow2(bits) != 0) ==> IsBits(r) && Value(r) == num % Pow2(bits)
    ensures var r := Encoded(num, bits);
      num < 0 && Abs(num) % Pow2(bits) == 0 ==>
        r[bits - 1] == 2 && forall j :: 0 <= j < bits - 1 ==> r[j] == 0
  {
    var r := Encoded(num, bits);
    if num >= 0 {
      DigitsOnZeros(num, bits);
      assert r == Digits(Abs(num), Zeros(bits), 0, bits, 0);
    } else {
      NegativeCells(num, bits);
      TopCell(r);
      var v := Abs(num) % Pow2(bits);
      if v != 0 {
        NegMod(Abs(num), Pow2(bits));
      } else {
        assert IsBits(r[..bits - 1]);
        ZeroBits(r[..bits - 1]);
        assert forall j :: 0 <= j < bits - 1 ==> r[j] == r[..bits - 1][j];
      }
    }
  }

  /** Read back as two's complement, the cells int_to_bin writes into a zeroed buffer give num whenever it fits. */
  lemma TwosComplement(num: int, bits: nat)
    requires bits > 0 && -Pow2(bits - 1) <= num < Pow2(bits - 1)
    ensures IsBits(Encoded(num, bits))
    ensures Signed(Encoded(num, bits)) == num
  {
    var p := Pow2(bits);
    var r := Encoded(num, bits);
    assert p == 2 * Pow2(bits - 1);
    if num < 0 {
      ModUnique(Abs(num), p, 0, Abs(num));
    }
    EncodedValue(num, bits);
    ValueBounds(r[..bits - 1]);
    assert Value(r) == Value(r[..bits - 1]) + Pow2(bits - 1) * r[bits - 1];
    if num >= 0 {
      ModUnique(num, p, 0, num);
    } else {
      ModUnique(num, p, -1, num + p);
    }
  }

  /** A negative magnitude that 2^bits divides leaves a 2 in the top cell: int_to_bin(-4, 2, ...). */
  lemma TopCellOverflow()
    ensures Encoded(-4, 2) == [0, 2]
  {
    EncodedValue(-4, 2);
    assert Pow2(2) == 4;
  }

  // ---------------------------------------------------------------------
  // print_word and print_int_as_word
  // ---------------------------------------------------------------------

  /** print_word: the word's cells from the top one down, ONE_CHAR for a non-zero cell and ZERO_CHAR for zero. */
  function WordText(w: seq<int>): (t: string)
    requires |w| == ASM_WORD_SIZE
    ensures |t| == ASM_WORD_SIZE
  {
    seq(ASM_WORD_SIZE, j requires 0 <= j < ASM_WORD_SIZE => if w[ASM_WORD_SIZE - 1 - j] != 0 then ONE_CHAR else ZERO_CHAR)
  }

  /** The cells a printed word spells, read from its last character back. */
  function TextBits(t: string): (b: seq<int>)
    ensures |b| == |t| && IsBits(b)
  {
    seq(|t|, i requires 0 <= i < |t| => if t[|t| - 1 - i] == ONE_CHAR then 1 else 0)
  }

  /** A printed word of 0 and 1 cells reads back as the same cells, and holds only ONE_CHAR and ZERO_CHAR. */
  lemma WordTextRoundTrip(w: seq<int>)
    requires |w| == ASM_WORD_SIZE && IsBits(w)
    ensures TextBits(WordText(w)) == w
    ensures forall j :: 0 <= j < ASM_WORD_SIZE ==> WordText(w)[j] in {ONE_CHAR, ZERO_CHAR}
  {
  }

  /** print_word on the 14 cells of bin from at. */
  method PrintWord(bin: array<int>, at: nat) returns (text: string)
    requires at + ASM_WORD_SIZE <= bin.Length
    ensures text == WordText(bin[at..at + ASM_WORD_SIZE])
  {
    text := [];
    var i := ASM_WORD_SIZE - 1;
    while i >= 0
      invariant -1 <= i < ASM_WORD_SIZE
      invariant |text| == ASM_WORD_SIZE - 1 - i
      invariant forall j :: 0 <= j < |text| ==> text[j] == WordText(bin[at..at + ASM_WORD_SIZE])[j]
    {
      text := text + [if bin[at + i] != 0 then ONE_CHAR else ZERO_CHAR];
      i := i - 1;
    }
  }

  /** clear_word */
  method ClearWord(word: array<int>)
    modifies word
    ensures word[..] == Zeros(word.Length)
  {
    var i := 0;
    while i < word.Length
      invariant 0 <= i <= word.Length
      invariant forall j :: 0 <= j < i ==> word[j] == 0
    {
      word[i] := 0;
      i := i + 1;
    }
  }

  /** The text print_int_as_word writes for n. */
  function IntWordText(n: int): string {
    WordText(Encoded(n, ASM_WORD_SIZE))
  }

  /** print_int_as_word */
  method PrintIntAsWord(n: int) returns (text: string)
    ensures text == IntWordText(n)
  {
    var word := new int[ASM_WORD_SIZE];
    ClearWord(word);
    IntToBin(n, ASM_WORD_SIZE, word, 0);
    text := PrintWord(word, 0);
    assert word[0..ASM_WORD_SIZE] == word[..];
  }

  /** A printed number read back as 14-bit two's complement is the number, for every number that fits. */
  lemma IntWordRoundTrip(n: int)
    requires -Pow2(ASM_WORD_SIZE - 1) <= n < Pow2(ASM_WORD_SIZE - 1)
    ensures Signed(TextBits(IntWordText(n))) == n
  {
    TwosComplement(n, ASM_WORD_SIZE);
    WordTextRoundTrip(Encoded(n, ASM_WORD_SIZE));
  }

  /** An address or data word in 0 .. 2^14 - 1 prints as its unsigned binary form. */
  lemma IntWordUnsigned(n: int)
    requires 0 <= n < Pow2(ASM_WORD_SIZE)
    ensures Value(TextBits(IntWordText(n))) == n
  {
    EncodedValue(n, ASM_WORD_SIZE);
    ModUnique(n, Pow2(ASM_WORD_SIZE), 0, n);
    WordTextRoundTrip(Encoded(n, ASM_WORD_SIZE));
  }
}
