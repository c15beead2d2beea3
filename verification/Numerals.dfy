/** Printing numbers: the recursive printer behind %d and %x with its padding, and the shift loop of itoa. */
module Numerals {
  import Bytes

  const ZERO: int := 48
  const MINUS: int := 45
  const LETTER_X: int := 120
  const INT_MIN: int := -0x8000_0000
  const INT_MAX: int := 0x7FFF_FFFF

  type Int32 = x: int | INT_MIN <= x <= INT_MAX

  // ----- C arithmetic -----

  /** The two bases numbers are printed in. */
  predicate IsBase(b: int) { b == 10 || b == 16 }

  function Abs(x: int): nat { if x < 0 then -x else x }

  function Times(b: int, x: int): int
    requires IsBase(b)
  {
    if b == 10 then 10 * x else 16 * x
  }

  /** Division and remainder towards zero. */
  function CDiv(a: int, b: int): int
    requires IsBase(b)
  {
    var d := if b == 10 then Abs(a) / 10 else Abs(a) / 16;
    if a >= 0 then d else -d
  }

  function CMod(a: int, b: int): int
    requires IsBase(b)
  {
    a - Times(b, CDiv(a, b))
  }

  /** A product that overflows wraps around. */
  function Wrap(x: int): Int32 {
    var r := x % Bytes.WORD;
    if r <= INT_MAX then r else r - Bytes.WORD
  }

  /** The 32 bits of a number, read without a sign. */
  function Unsigned(x: Int32): int { if x >= 0 then x else x + Bytes.WORD }

  // ----- Numerals -----

  function Code(m: int): int { if m < 10 then m + ZERO else m - 10 + 65 }

  /** The characters of the digits. */
  lemma CodeIsCharacter(m: nat)
    requires m < 16
    ensures Code(m) == "0123456789ABCDEF"[m] as int
    ensures MINUS == '-' as int && LETTER_X == 'x' as int && ZERO == '0' as int
  {
  }

  /** What i2a writes. */
  function Digits(val: int, base: int): seq<int>
    requires IsBase(base)
    decreases Abs(val)
  {
    var m, q := CMod(val, base), CDiv(val, base);
    if q == 0 then [Code(m)] else Digits(q, base) + [Code(m)]
  }

  /** The digit a character stands for, or -1. */
  function DigitOf(c: int): int {
    if ZERO <= c < ZERO + 10 then c - ZERO else if 65 <= c < 65 + 26 then c - 65 + 10 else -1
  }

  ghost predicate IsNumeral(s: seq<int>, base: int) {
    s != [] && forall i :: 0 <= i < |s| ==> 0 <= DigitOf(s[i]) < base
  }

  /** No leading zero, but for zero itself. */
  ghost predicate Canonical(s: seq<int>, base: int) {
    IsNumeral(s, base) && (s[0] == ZERO ==> |s| == 1)
  }

  function Value(s: seq<int>, base: int): int
    requires IsBase(base)
  {
    if s == [] then 0 else Times(base, Value(s[..|s| - 1], base)) + DigitOf(s[|s| - 1])
  }

  lemma CodeIsDigit(m: int)
    requires 0 <= m < 36
    ensures DigitOf(Code(m)) == m
  {
  }

  lemma DivMod(n: nat, base: int)
    requires IsBase(base)
    ensures 0 <= CMod(n, base) < base && n == Times(base, CDiv(n, base)) + CMod(n, base)
    ensures 0 <= CDiv(n, base) && (n > 0 ==> CDiv(n, base) < n) && (CDiv(n, base) == 0 <==> n < base)
    ensures n < base ==> CMod(n, base) == n
  {
  }

  /** The numeral printed is canonical and has the value printed, in either base. */
  lemma {:induction false} DigitsAreCanonical(n: nat, base: int)
    requires IsBase(base)
    ensures Canonical(Digits(n, base), base) && Value(Digits(n, base), base) == n
    ensures n > 0 ==> Digits(n, base)[0] != ZERO
    decreases n
  {
    hide CDiv, CMod, Times, DigitOf, Canonical, Value, Code;
    DivMod(n, base);
    var c := Code(CMod(n, base));
    CodeIsDigit(CMod(n, base));
    if n >= base {
      DigitsAreCanonical(CDiv(n, base), base);
      OneDigitMore(Digits(CDiv(n, base), base), c, base);
    } else {
      OneDigit(c, base);
    }
  }

  lemma OneDigit(c: int, base: int)
    requires IsBase(base) && 0 <= DigitOf(c) < base
    ensures Canonical([c], base) && Value([c], base) == DigitOf(c) && (c == ZERO <==> DigitOf(c) == 0)
  {
    assert Value([], base) == 0 && [c][..0] == [];
  }

  lemma OneDigitMore(d: seq<int>, c: int, base: int)
    requires IsBase(base) && Canonical(d, base) && d[0] != ZERO && 0 <= DigitOf(c) < base
    ensures Canonical(d + [c], base) && Value(d + [c], base) == Times(base, Value(d, base)) + DigitOf(c)
    ensures (d + [c])[0] == d[0]
  {
    assert (d + [c])[..|d|] == d;
  }

  lemma {:induction false} ValueBounds(s: seq<int>, base: int)
    requires IsBase(base) && IsNumeral(s, base)
    ensures Value(s, base) >= DigitOf(s[0]) >= 0
  {
    var n := |s| - 1;
    if n > 0 {
      ValueBounds(s[..n], base);
    }
  }

  /** And it is the only one. */
  lemma {:induction false} CanonicalIsUnique(s: seq<int>, base: int)
    requires IsBase(base) && Canonical(s, base)
    ensures Value(s, base) >= 0 && s == Digits(Value(s, base), base)
    decreases |s|
  {
    hide CDiv, CMod, Times, Code, DigitOf;
    var n := |s| - 1;
    var w, d := Value(s[..n], base), DigitOf(s[n]);
    CodeOf(s[n], base);
    if n == 0 {
      assert s == [s[0]] && w == 0;
    } else {
      CanonicalIsUnique(s[..n], base);
      PositiveHead(s, base);
      assert s == s[..n] + [s[n]];
    }
    Quotient(Value(s, base), w, d, base);
  }

  lemma PositiveHead(s: seq<int>, base: int)
    requires IsBase(base) && Canonical(s, base) && |s| > 1
    ensures Canonical(s[..|s| - 1], base) && Value(s[..|s| - 1], base) > 0
  {
    NonZeroHead(s[..|s| - 1], base);
  }

  lemma CodeOf(c: int, base: int)
    requires IsBase(base) && 0 <= DigitOf(c) < base
    ensures Code(DigitOf(c)) == c
  {
  }

  lemma NonZeroHead(s: seq<int>, base: int)
    requires IsBase(base) && IsNumeral(s, base) && s[0] != ZERO
    ensures Value(s, base) > 0
  {
    ValueBounds(s, base);
  }

  lemma Quotient(v: int, w: int, d: int, base: int)
    requires IsBase(base) && v == Times(base, w) + d && 0 <= d < base && w >= 0
    ensures CDiv(v, base) == w && CMod(v, base) == d && v >= 0
  {
  }

  // ----- i2a -----

  /** Write the numeral at position p of the buffer; the result is the position behind it. */
  method I2A(val: int, base: int, buf: array<int>, p: nat) returns (r: nat)
    requires IsBase(base) && p + |Digits(val, base)| <= buf.Length
    modifies buf
    ensures r == p + |Digits(val, base)| && r <= buf.Length && buf[p..r] == Digits(val, base)
    ensures buf[..p] == old(buf[..p]) && buf[r..] == old(buf[r..])
    decreases Abs(val)
  {
    var m, q := CMod(val, base), CDiv(val, base);
    ghost var b0 := buf[..];
    r := p;
    if q != 0 {
      r := I2A(q, base, buf, p);
    }
    ghost var b1 := buf[..];
    assert b1[p..r] == if q == 0 then [] else Digits(q, base);
    assert b1[..p] == b0[..p] && b1[r..] == b0[r..];
    buf[r] := if m < 10 then m + ZERO else m - 10 + 65;
    assert buf[..] == b1[r := Code(m)];
    DigitStored(b0, b1, p, r, Code(m));
    r := r + 1;
  }

  /** One character more behind those written from p on. */
  lemma DigitStored(b0: seq<int>, b1: seq<int>, p: nat, r: nat, c: int)
    requires p <= r < |b1| == |b0| && b1[..p] == b0[..p] && b1[r..] == b0[r..]
    ensures b1[r := c][p..r + 1] == b1[p..r] + [c]
    ensures b1[r := c][..p] == b0[..p] && b1[r := c][r + 1..] == b0[r + 1..]
  {
    assert b1[r..][1..] == b1[r + 1..] && b0[r..][1..] == b0[r + 1..];
  }

  // ----- itoa -----

  /** u shifted right by 4 k bits. */
  function Shifted(u: nat, k: nat): nat {
    if k == 0 then u else Shifted(u, k - 1) / 16
  }

  lemma ShiftedOut(u: nat)
    requires u < Bytes.WORD
    ensures Shifted(u, 8) == 0
  {
    assert Shifted(u, 1) < 0x1000_0000 && Shifted(u, 2) < 0x100_0000 && Shifted(u, 3) < 0x10_0000
      && Shifted(u, 4) < 0x1_0000;
    assert Shifted(u, 5) < 0x1000 && Shifted(u, 6) < 0x100 && Shifted(u, 7) < 0x10;
  }

  lemma NextDigit(u: nat, k: nat)
    ensures Shifted(u, k) == 16 * Shifted(u, k + 1) + Shifted(u, k) % 16
    ensures Digits(Shifted(u, k), 16)
      == (if Shifted(u, k + 1) == 0 then [] else Digits(Shifted(u, k + 1), 16)) + [Code(Shifted(u, k) % 16)]
  {
    assert CDiv(Shifted(u, k), 16) == Shifted(u, k + 1);
    assert CMod(Shifted(u, k), 16) == Shifted(u, k) % 16;
  }

  /** `(num >> 4 * k) & 0xF` takes the same four bits from a number as from its 32 bits read without a sign. */
  method Itoa(num: Int32) returns (str: seq<int>)
    ensures str == [ZERO, LETTER_X] + Digits(Unsigned(num), 16)
  {
    hide Shifted, Digits;
    ghost var u := Unsigned(num);
    str := [ZERO, LETTER_X];
    if num == 0 {
      str := str + [ZERO];
      ZeroDigits();
      return;
    }
    var flag := false;
    var k: int := 7;
    ShiftedOut(u);
    while k >= 0
      invariant -1 <= k <= 7 && (flag <==> Shifted(u, k + 1) != 0)
      invariant str == [ZERO, LETTER_X] + if flag then Digits(Shifted(u, k + 1), 16) else []
    {
      var ch := Shifted(Unsigned(num), k) % 16;
      NextDigit(u, k);
      if flag || ch > 0 {
        flag := true;
        ch := ch + ZERO;
        if ch > 57 {
          ch := ch + 7;
        }
        str := str + [ch];
      }
      k := k - 1;
    }
    NoShift(u);
  }

  lemma NoShift(u: nat)
    ensures Shifted(u, 0) == u
  {
  }

  lemma ZeroDigits()
    ensures Digits(0, 16) == [ZERO]
  {
  }

  // ----- Negative numbers -----

  /** For a negative number every digit is taken below the character for zero, so what comes out is no numeral. */
  lemma {:induction false} NegativeDigits(val: int, base: int)
    requires IsBase(base) && val < 0
    ensures Digits(val, base) != [] && 0 < Digits(val, base)[0] < ZERO && !IsNumeral(Digits(val, base), base)
    decreases Abs(val)
  {
    var q := CDiv(val, base);
    if q != 0 {
      NegativeDigits(q, base);
      assert Digits(val, base)[0] == Digits(q, base)[0];
    }
    assert DigitOf(Digits(val, base)[0]) == -1;
  }

  /** %x prints the value of the bits exactly when the number is not negative. */
  lemma HexExactly(n: Int32)
    ensures IsNumeral(Digits(n, 16), 16) && Value(Digits(n, 16), 16) == Unsigned(n) <==> n >= 0
  {
    if n >= 0 { DigitsAreCanonical(n, 16); } else { NegativeDigits(n, 16); }
  }

  /** m * (-1), which overflows for the least number. */
  function Negated(m: Int32): Int32 {
    var x: int := m;
    Wrap(x * -1)
  }

  lemma NegatedIs(m: Int32)
    ensures m < 0 ==> if m == INT_MIN then Negated(m) == INT_MIN else Negated(m) == 0 - m > 0
  {
  }

  /** What %d writes before padding. */
  function Decimal(m: Int32): seq<int> {
    if m < 0 then [MINUS] + Digits(Negated(m), 10) else Digits(m, 10)
  }

  /** The text is a decimal numeral for v, with a minus sign in front if v is negative. */
  ghost predicate Denotes(s: seq<int>, v: int) {
    || (IsNumeral(s, 10) && Value(s, 10) == v)
    || (|s| > 1 && s[0] == MINUS && IsNumeral(s[1..], 10) && -Value(s[1..], 10) == v)
  }

  /** %d prints every number but the least, whose negation overflows, so that it reads back as itself. */
  lemma DecimalExactly(m: Int32)
    ensures Denotes(Decimal(m), m) <==> m != INT_MIN
  {
    hide Digits, Value, Negated;
    NegatedIs(m);
    if m >= 0 {
      DigitsAreCanonical(m, 10);
    } else {
      var s := Decimal(m);
      assert s[1..] == Digits(Negated(m), 10);
      assert DigitOf(s[0]) == -1;
      if m == INT_MIN { NegativeDigits(INT_MIN, 10); } else { DigitsAreCanonical(0 - m, 10); }
    }
  }

  // ----- Padding -----

  function Fill(c: int, n: int): seq<int> {
    if n <= 0 then [] else [c] + Fill(c, n - 1)
  }

  /** A text padded on the left to a width. */
  function Padded(c: int, width: nat, body: seq<int>): seq<int> {
    Fill(c, width - |body|) + body
  }

  lemma {:induction false} FillIs(c: int, n: int)
    ensures |Fill(c, n)| == (if n > 0 then n else 0) && forall i :: 0 <= i < |Fill(c, n)| ==> Fill(c, n)[i] == c
    decreases n
  {
    if n > 0 { FillIs(c, n - 1); }
  }

  lemma PaddedLength(c: int, width: nat, body: seq<int>)
    ensures |Padded(c, width, body)| == if width > |body| then width else |body|
    ensures Padded(c, width, body)[|Padded(c, width, body)| - |body|..] == body
    ensures forall i :: 0 <= i < |Padded(c, width, body)| - |body| ==> Padded(c, width, body)[i] == c
  {
    FillIs(c, width - |body|);
  }

  lemma {:induction false} LeadingZeros(n: int, s: seq<int>, base: int)
    requires IsBase(base) && IsNumeral(s, base)
    ensures IsNumeral(Fill(ZERO, n) + s, base) && Value(Fill(ZERO, n) + s, base) == Value(s, base)
    decreases n, |s|
  {
    FillIs(ZERO, n);
    var t := Fill(ZERO, n) + s;
    var k := |s| - 1;
    if n <= 0 {
      assert t == s;
    } else if k > 0 {
      LeadingZeros(n, s[..k], base);
      assert t[..|t| - 1] == Fill(ZERO, n) + s[..k];
    } else {
      assert t[..|t| - 1] == Fill(ZERO, n);
      ZerosAreZero(n, base);
      assert s[..0] == [];
    }
  }

  lemma {:induction false} ZerosAreZero(n: int, base: int)
    requires IsBase(base)
    ensures Value(Fill(ZERO, n), base) == 0
    decreases n
  {
    FillIs(ZERO, n);
    if n > 0 {
      FillIs(ZERO, n - 1);
      ZerosAreZero(n - 1, base);
      assert Fill(ZERO, n)[..n - 1] == Fill(ZERO, n - 1);
    }
  }

  /**
   With zeros for padding the field reads back exactly when, besides, no zero has come to stand before a minus sign.
   */
  lemma ZeroPaddedExactly(m: Int32, width: nat)
    ensures Denotes(Padded(ZERO, width, Decimal(m)), m) <==> m != INT_MIN && (m >= 0 || width <= |Decimal(m)|)
  {
    var body := Decimal(m);
    var s := Padded(ZERO, width, body);
    PaddedLength(ZERO, width, body);
    FillIs(ZERO, width - |body|);
    DecimalExactly(m);
    if m >= 0 {
      DigitsAreCanonical(m, 10);
      LeadingZeros(width - |body|, body, 10);
    } else if width <= |body| {
      assert s == body;
    } else {
      assert s[0] == ZERO && s[width - |body|] == MINUS;
      assert DigitOf(s[width - |body|]) == -1;
    }
  }

  // ----- The %d and %x cases of vsprintf -----

  const STR_DEFAULT_LEN: nat := 1024

  /** The greatest number of n decimal digits. */
  function Nines(n: nat): nat { if n == 0 then 0 else 10 * Nines(n - 1) + 9 }

  lemma {:induction false} DigitsFit(val: int, base: int, n: nat)
    requires IsBase(base) && Abs(val) <= Nines(n) && n > 0
    ensures 0 < |Digits(val, base)| <= n && forall i :: 0 <= i < |Digits(val, base)| ==> Digits(val, base)[i] > 0
    decreases n
  {
    var q := CDiv(val, base);
    if q != 0 {
      assert Abs(q) <= Nines(n - 1);
      assert n > 1;
      DigitsFit(q, base, n - 1);
    }
  }

  lemma IntsFit(val: Int32, base: int)
    requires IsBase(base)
    ensures 0 < |Digits(val, base)| <= 10 && forall i :: 0 <= i < |Digits(val, base)| ==> Digits(val, base)[i] > 0
  {
    assert Nines(10) == 9_999_999_999;
    DigitsFit(val, base, 10);
  }

  /** The number as it stands in the inner buffer, a text that ends with a zero. */
  method WriteNumber(decimal: bool, arg: Int32, innerBuf: array<int>) returns (q: nat)
    requires innerBuf.Length == STR_DEFAULT_LEN && forall i :: 0 <= i < innerBuf.Length ==> innerBuf[i] == 0
    modifies innerBuf
    ensures q < innerBuf.Length && innerBuf[..q] == (if decimal then Decimal(arg) else Digits(arg, 16))
      && innerBuf[q] == 0
    ensures forall i :: 0 <= i < q ==> innerBuf[i] != 0
  {
    hide Digits, Negated, Nines;
    q := 0;
    var m: Int32 := arg;
    if decimal && m < 0 {
      m := Negated(m);
      innerBuf[q] := MINUS;
      q := q + 1;
    }
    ghost var p, sign := q, innerBuf[..q];
    assert sign == if decimal && arg < 0 then [MINUS] else [];
    var base := if decimal then 10 else 16;
    IntsFit(m, base);
    ghost var b0 := innerBuf[..];
    q := I2A(m, base, innerBuf, q);
    TextWritten(b0, innerBuf[..], p, q, sign, Digits(m, base));
    assert [] + Digits(m, base) == Digits(m, base);
  }

  /** A sign and digits, with a zero behind them, in a buffer that was zero behind the sign. */
  lemma TextWritten(b0: seq<int>, b: seq<int>, p: nat, q: nat, sign: seq<int>, digits: seq<int>)
    requires p <= q < |b| == |b0| && b[..p] == b0[..p] == sign && b[p..q] == digits && b[q..] == b0[q..]
    requires forall i :: p <= i < |b0| ==> b0[i] == 0
    requires (forall i :: 0 <= i < |sign| ==> sign[i] != 0) && forall i :: 0 <= i < |digits| ==> digits[i] > 0
    ensures b[..q] == sign + digits && b[q] == 0 && forall i :: 0 <= i < q ==> b[i] != 0
  {
    assert b[q] == b[q..][0] == b0[q..][0] == b0[q];
    assert b[..q] == b[..p] + b[p..q];
    forall i | 0 <= i < q ensures b[i] != 0 { assert b[i] == (sign + digits)[i]; }
  }

  /** A number in decimal or hexadecimal, through the inner buffer, then padded into the output. */
  method FormatNumber(decimal: bool, arg: Int32, cs: int, alignNr: nat) returns (out: seq<int>)
    ensures out == Padded(cs, alignNr, if decimal then Decimal(arg) else Digits(arg, 16))
  {
    hide Digits, Decimal;
    var innerBuf := new int[STR_DEFAULT_LEN](_ => 0);
    ghost var q := WriteNumber(decimal, arg, innerBuf);
    ghost var b := innerBuf[..];
    var len := 0;
    while innerBuf[len] != 0
      invariant 0 <= len <= q && innerBuf[..] == b
      decreases q - len
    {
      len := len + 1;
    }
    out := [];
    var k := 0;
    while k < (if alignNr > len then alignNr - len else 0)
      invariant 0 <= k <= (if alignNr > len then alignNr - len else 0) && out == Fill(cs, k) && innerBuf[..] == b
    {
      FillEnd(cs, k);
      out := out + [cs];
      k := k + 1;
    }
    var p := 0;
    while innerBuf[p] != 0
      invariant 0 <= p <= len && out == Fill(cs, alignNr - len) + b[..p] && innerBuf[..] == b
      decreases len - p
    {
      assert b[..p + 1] == b[..p] + [innerBuf[p]];
      out := out + [innerBuf[p]];
      p := p + 1;
    }
  }

  lemma {:induction false} FillEnd(c: int, n: nat)
    ensures Fill(c, n + 1) == Fill(c, n) + [c]
    decreases n
  {
    if n > 0 { FillEnd(c, n - 1); }
  }
}
