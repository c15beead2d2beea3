/** Bytes, their bits, and the 32-bit little-endian words the disk structures are made of. */
module Bytes {
  type Byte = bv8

  function Mask(k: nat): Byte
    requires k < 8
  {
    if k == 0 then 0x01 else if k == 1 then 0x02 else if k == 2 then 0x04 else if k == 3 then 0x08
    else if k == 4 then 0x10 else if k == 5 then 0x20 else if k == 6 then 0x40 else 0x80
  }

  predicate Bit(b: Byte, k: nat)
    requires k < 8
  {
    b & Mask(k) != 0
  }

  /** The bits from k up, as `0xFF << k` leaves them in a byte. */
  function From(k: nat): Byte
    requires k <= 8
  {
    if k == 0 then 0xFF else if k == 1 then 0xFE else if k == 2 then 0xFC else if k == 3 then 0xF8
    else if k == 4 then 0xF0 else if k == 5 then 0xE0 else if k == 6 then 0xC0 else if k == 7 then 0x80 else 0
  }

  lemma SetBit(b: Byte, k: nat, j: nat)
    requires k < 8 && j < 8
    ensures Bit(b | Mask(k), j) <==> Bit(b, j) || j == k
  {
  }

  lemma ClearBit(b: Byte, k: nat, j: nat)
    requires k < 8 && j < 8
    ensures Bit(b & !Mask(k), j) <==> Bit(b, j) && j != k
  {
  }

  lemma Full(b: Byte)
    ensures b == 0xFF <==> forall j :: 0 <= j < 8 ==> Bit(b, j)
  {
    assert (Bit(b, 0) && Bit(b, 1) && Bit(b, 2) && Bit(b, 3) && Bit(b, 4) && Bit(b, 5) && Bit(b, 6) && Bit(b, 7)) <==>
      b == 0xFF;
  }

  lemma BitsDetermine(a: Byte, b: Byte)
    requires forall j :: 0 <= j < 8 ==> Bit(a, j) == Bit(b, j)
    ensures a == b
  {
    assert Bit(a, 0) == Bit(b, 0) && Bit(a, 1) == Bit(b, 1) && Bit(a, 2) == Bit(b, 2) && Bit(a, 3) == Bit(b, 3);
    assert Bit(a, 4) == Bit(b, 4) && Bit(a, 5) == Bit(b, 5) && Bit(a, 6) == Bit(b, 6) && Bit(a, 7) == Bit(b, 7);
  }

  /** `1 << k` in a byte. */
  function Shl(k: nat): Byte
    requires k < 8
  {
    (1 as bv8) << k
  }

  /** `(b >> k) & 1`. */
  function Shr(b: Byte, k: nat): Byte
    requires k < 8
  {
    (b >> k) & 1
  }

  /** `b | (1 << k)`, `b & ~(1 << k)` and `b & (1 << k)`. */
  function OrBit(b: Byte, k: nat): Byte
    requires k < 8
  {
    b | Shl(k)
  }

  function AndNotBit(b: Byte, k: nat): Byte
    requires k < 8
  {
    b & !Shl(k)
  }

  function AndBit(b: Byte, k: nat): Byte
    requires k < 8
  {
    b & Shl(k)
  }

  lemma Shifts(b: Byte, k: nat)
    requires k < 8
    ensures Shr(b, k) == (if Bit(b, k) then 1 else 0)
    ensures Shl(k) == Mask(k) && (AndBit(b, k) != 0 <==> Bit(b, k))
  {
  }

  lemma NoBits(t: nat)
    requires t < 8
    ensures !Bit(0, t)
  {
  }

  lemma SetBits(b: Byte, k: nat)
    requires k < 8
    ensures forall j :: 0 <= j < 8 ==> (Bit(OrBit(b, k), j) <==> Bit(b, j) || j == k)
  {
    hide Bit, Mask, Shl;
    Shifts(b, k);
    forall j | 0 <= j < 8 ensures Bit(OrBit(b, k), j) <==> Bit(b, j) || j == k { SetBit(b, k, j); }
  }

  lemma ClearBits(b: Byte, k: nat)
    requires k < 8
    ensures forall j :: 0 <= j < 8 ==> (Bit(AndNotBit(b, k), j) <==> Bit(b, j) && j != k)
  {
    hide Bit, Mask, Shl;
    Shifts(b, k);
    forall j | 0 <= j < 8 ensures Bit(AndNotBit(b, k), j) <==> Bit(b, j) && j != k { ClearBit(b, k, j); }
  }

  /** `b & (~0 << n)`, and the test that the bits this clears are all set. */
  function AndHigh(b: Byte, n: nat): Byte
    requires n < 8
  {
    b & From(n)
  }

  predicate LowSet(b: Byte, n: nat)
    requires n < 8
  {
    b & !From(n) == !From(n)
  }

  lemma LowBits(b: Byte, n: nat, j: nat)
    requires n < 8 && j < 8
    ensures Bit(AndHigh(b, n), j) <==> Bit(b, j) && j >= n
    ensures LowSet(b, n) && j < n ==> Bit(b, j)
    ensures n == 0 ==> AndHigh(b, n) == b && LowSet(b, n)
  {
  }

  lemma LowBitsSet(b: Byte, n: nat)
    requires n < 8 && forall j :: 0 <= j < n ==> Bit(b, j)
    ensures LowSet(b, n)
  {
    assert n > 0 ==> Bit(b, 0);
    assert n > 1 ==> Bit(b, 1);
    assert n > 2 ==> Bit(b, 2);
    assert n > 3 ==> Bit(b, 3);
    assert n > 4 ==> Bit(b, 4);
    assert n > 5 ==> Bit(b, 5);
    assert n > 6 ==> Bit(b, 6);
  }

  // ----- Numbers -----

  function BitVal(b: Byte, k: nat): int
    requires k < 8
  {
    if Bit(b, k) then 1 else 0
  }

  /** The number a byte stands for. */
  function ByteVal(b: Byte): int {
    BitVal(b, 0) + 2 * BitVal(b, 1) + 4 * BitVal(b, 2) + 8 * BitVal(b, 3)
    + 16 * BitVal(b, 4) + 32 * BitVal(b, 5) + 64 * BitVal(b, 6) + 128 * BitVal(b, 7)
  }

  function BitIf(c: bool, k: nat): Byte
    requires k < 8
  {
    if c then Mask(k) else 0
  }

  function PackBits(b0: bool, b1: bool, b2: bool, b3: bool, b4: bool, b5: bool, b6: bool, b7: bool): Byte {
    BitIf(b0, 0) | BitIf(b1, 1) | BitIf(b2, 2) | BitIf(b3, 3) | BitIf(b4, 4) | BitIf(b5, 5) | BitIf(b6, 6)
      | BitIf(b7, 7)
  }

  function Odd(x: int): bool { x % 2 == 1 }

  /** x shifted right k times. */
  function Half(x: nat, k: nat): nat {
    if k == 0 then x else Half(x, k - 1) / 2
  }

  /** The byte that stands for a number. */
  function ByteOf(x: int): Byte
    requires 0 <= x < 0x100
  {
    PackBits(Odd(x), Odd(Half(x, 1)), Odd(Half(x, 2)), Odd(Half(x, 3)),
             Odd(Half(x, 4)), Odd(Half(x, 5)), Odd(Half(x, 6)), Odd(Half(x, 7)))
  }

  lemma Packed(b0: bool, b1: bool, b2: bool, b3: bool, b4: bool, b5: bool, b6: bool, b7: bool)
    ensures var b := PackBits(b0, b1, b2, b3, b4, b5, b6, b7);
      Bit(b, 0) == b0 && Bit(b, 1) == b1 && Bit(b, 2) == b2 && Bit(b, 3) == b3
      && Bit(b, 4) == b4 && Bit(b, 5) == b5 && Bit(b, 6) == b6 && Bit(b, 7) == b7
  {
  }

  lemma PackedBits(x: int)
    requires 0 <= x < 0x100
    ensures var b := ByteOf(x);
      && BitVal(b, 0) == Half(x, 0) % 2 && BitVal(b, 1) == Half(x, 1) % 2
      && BitVal(b, 2) == Half(x, 2) % 2 && BitVal(b, 3) == Half(x, 3) % 2
      && BitVal(b, 4) == Half(x, 4) % 2 && BitVal(b, 5) == Half(x, 5) % 2
      && BitVal(b, 6) == Half(x, 6) % 2 && BitVal(b, 7) == Half(x, 7) % 2
  {
    hide Bit, PackBits, Half;
    HalfOnce(x, 0);
    Packed(Odd(x), Odd(Half(x, 1)), Odd(Half(x, 2)), Odd(Half(x, 3)),
           Odd(Half(x, 4)), Odd(Half(x, 5)), Odd(Half(x, 6)), Odd(Half(x, 7)));
  }

  lemma HalfOnce(x: nat, k: nat)
    ensures Half(x, 0) == x && Half(x, k) == Half(x, k) % 2 + 2 * Half(x, k + 1)
  {
  }

  /** The binary digits of a byte-sized number, and nothing beyond them. */
  lemma Binary(x: nat)
    ensures x == Half(x, 0) % 2 + 2 * (Half(x, 1) % 2) + 4 * (Half(x, 2) % 2) + 8 * (Half(x, 3) % 2)
      + 16 * (Half(x, 4) % 2) + 32 * (Half(x, 5) % 2) + 64 * (Half(x, 6) % 2) + 128 * (Half(x, 7) % 2)
      + 256 * Half(x, 8)
  {
    hide Half;
    HalfOnce(x, 0);
    HalfOnce(x, 1);
    HalfOnce(x, 2);
    HalfOnce(x, 3);
    HalfOnce(x, 4);
    HalfOnce(x, 5);
    HalfOnce(x, 6);
    HalfOnce(x, 7);
  }

  lemma ByteRoundTrip(x: int)
    requires 0 <= x < 0x100
    ensures ByteVal(ByteOf(x)) == x
  {
    hide BitVal, ByteOf, Half;
    PackedBits(x);
    Binary(x);
  }

  lemma ByteRange(b: Byte)
    ensures 0 <= ByteVal(b) < 0x100
  {
    hide Bit;
  }

  const WORD: int := 0x1_0000_0000

  /** A 32-bit little-endian number. */
  function Word(b: seq<Byte>): int
    requires |b| == 4
  {
    ByteVal(b[0]) + 0x100 * ByteVal(b[1]) + 0x1_0000 * ByteVal(b[2]) + 0x100_0000 * ByteVal(b[3])
  }

  function WordBytes(v: int): (r: seq<Byte>)
    requires 0 <= v < WORD
    ensures |r| == 4
  {
    [ByteOf(v % 0x100), ByteOf(v / 0x100 % 0x100), ByteOf(v / 0x1_0000 % 0x100), ByteOf(v / 0x100_0000)]
  }

  /** A number's bytes start with the lowest: times 0x100 is one byte further, and the one then freed is zero. */
  lemma LowBytesFirst(v: int)
    requires 0 <= 0x100 * v < WORD
    ensures WordBytes(0x100 * v) == [0] + WordBytes(v)[..3] && WordBytes(v)[3] == 0
    ensures v < 0x100 ==> WordBytes(v) == [ByteOf(v), 0, 0, 0]
  {
    hide ByteOf;
    ZeroByte();
    Times256(v);
  }

  lemma Times256(v: int)
    requires 0 <= 0x100 * v < WORD
    ensures var w := 0x100 * v;
      w % 0x100 == 0 && w / 0x100 == v && w / 0x1_0000 == v / 0x100 && w / 0x100_0000 == v / 0x1_0000 < 0x100
    ensures v / 0x100_0000 == 0 && v / 0x1_0000 % 0x100 == v / 0x1_0000
  {
  }

  lemma ZeroByte()
    ensures ByteOf(0) == 0
  {
    assert Half(0, 1) == Half(0, 2) == Half(0, 3) == Half(0, 4) == Half(0, 5) == Half(0, 6) == Half(0, 7) == 0;
  }

  /** A byte's number is what the machine takes it for. */
  lemma ByteIsNumber(b: Byte)
    ensures ByteVal(b) == b as int
  {
  }

  lemma Digits(v: int)
    requires 0 <= v < WORD
    ensures v == v % 0x100 + 0x100 * (v / 0x100 % 0x100) + 0x1_0000 * (v / 0x1_0000 % 0x100)
      + 0x100_0000 * (v / 0x100_0000)
  {
    assert v / 0x1_0000 == v / 0x100 / 0x100;
    assert v / 0x100_0000 == v / 0x1_0000 / 0x100;
  }

  lemma WordRoundTrip(v: int)
    requires 0 <= v < WORD
    ensures Word(WordBytes(v)) == v
  {
    hide ByteVal, ByteOf;
    Digits(v);
    ByteRoundTrip(v % 0x100);
    ByteRoundTrip(v / 0x100 % 0x100);
    ByteRoundTrip(v / 0x1_0000 % 0x100);
    ByteRoundTrip(v / 0x100_0000);
  }

  lemma WordRange(b: seq<Byte>)
    requires |b| == 4
    ensures 0 <= Word(b) < WORD
  {
    hide ByteVal;
    ByteRange(b[0]);
    ByteRange(b[1]);
    ByteRange(b[2]);
    ByteRange(b[3]);
  }
}
