/** What the three code bytes say about the bits of the block, counted bit by bit. */
module NandParity {
  import opened NandEcc

  /** A choice among the bits of a block: byte i, bit b. */
  type Choice = (nat, nat) -> bool

  function MaskOf(b: nat): bv8 {
    if b == 0 then 1 else if b == 1 then 2 else if b == 2 then 4 else if b == 3 then 8
    else if b == 4 then 16 else if b == 5 then 32 else if b == 6 then 64 else 128
  }

  predicate IsSet(a: bv8, b: nat) {
    a & MaskOf(b) != 0
  }

  /** The chosen bits of byte i that are set, among the lowest b. */
  function BitsOf(a: bv8, i: nat, sel: Choice, b: nat): nat {
    if b == 0 then 0
    else BitsOf(a, i, sel, b - 1) + if IsSet(a, b - 1) && sel(i, b - 1) then 1 else 0
  }

  /** The chosen bits that are set in the first n bytes. */
  function Count(d: Block, sel: Choice, n: nat): nat
    requires n <= 256
  {
    if n == 0 then 0 else Count(d, sel, n - 1) + BitsOf(d[n - 1], n - 1, sel, 8)
  }

  predicate IsOdd(n: nat) {
    n % 2 == 1
  }

  function Weight(t: nat): (w: nat)
    ensures w > 0
  {
    if t == 0 then 1 else if t == 1 then 2 else if t == 2 then 4 else if t == 3 then 8
    else if t == 4 then 16 else if t == 5 then 32 else if t == 6 then 64 else 128
  }

  /** Binary digit t of a number below 256. */
  predicate Digit(n: nat, t: nat) {
    n / Weight(t) % 2 == 1
  }

  /** Column parity j looks at the bits whose number has digit j / 2 equal to j % 2. */
  function ColumnChoice(j: nat): Choice {
    (i: nat, b: nat) => Digit(b, j / 2) == (j % 2 == 1)
  }

  /** Line parities look at the bytes whose number has digit t, or has it not. */
  function LineChoice(t: nat, odd: bool): Choice {
    (i: nat, b: nat) => Digit(i, t) == odd
  }

  // ----- one byte -----

  function One(b: bool): nat { if b then 1 else 0 }

  predicate Chosen(a: bv8, i: nat, sel: Choice, b: nat) {
    IsSet(a, b) && sel(i, b)
  }

  function Sum4(p: bool, q: bool, r: bool, s: bool): nat { One(p) + One(q) + One(r) + One(s) }

  lemma BitsUnfold(a: bv8, i: nat, sel: Choice)
    ensures BitsOf(a, i, sel, 8)
         == Sum4(Chosen(a, i, sel, 0), Chosen(a, i, sel, 1), Chosen(a, i, sel, 2), Chosen(a, i, sel, 3))
          + Sum4(Chosen(a, i, sel, 4), Chosen(a, i, sel, 5), Chosen(a, i, sel, 6), Chosen(a, i, sel, 7))
  {
    hide BitsOf, Chosen, One;
    BitsStep(a, i, sel, 0); BitsStep(a, i, sel, 1); BitsStep(a, i, sel, 2); BitsStep(a, i, sel, 3);
    BitsStep(a, i, sel, 4); BitsStep(a, i, sel, 5); BitsStep(a, i, sel, 6); BitsStep(a, i, sel, 7);
  }

  lemma BitsStep(a: bv8, i: nat, sel: Choice, b: nat)
    ensures BitsOf(a, i, sel, b + 1) == BitsOf(a, i, sel, b) + One(Chosen(a, i, sel, b))
    ensures BitsOf(a, i, sel, 0) == 0
  {
    hide IsSet;
  }

  function Xors(p: bool, q: bool, r: bool, s: bool): bool { ((p != q) != r) != s }

  lemma OddOfFour(p: bool, q: bool, r: bool, s: bool)
    ensures IsOdd(Sum4(p, q, r, s)) == Xors(p, q, r, s)
  {
  }

  lemma OddSum(m: nat, n: nat)
    ensures IsOdd(m + n) == (IsOdd(m) != IsOdd(n))
  {
  }

  lemma LowBits(a: bv8, j: nat)
    requires j < 7
    ensures IsSet(Low(a), j) == Xors(
                IsSet(a, 0) && IsSet(0x55, j), IsSet(a, 1) && IsSet(0x56, j),
                IsSet(a, 2) && IsSet(0x59, j), IsSet(a, 3) && IsSet(0x5a, j))
  {
  }

  lemma HighBits(a: bv8, j: nat)
    requires j < 7
    ensures IsSet(High(a), j) == Xors(
                IsSet(a, 4) && IsSet(0x65, j), IsSet(a, 5) && IsSet(0x66, j),
                IsSet(a, 6) && IsSet(0x69, j), IsSet(a, 7) && IsSet(0x6a, j))
  {
  }

  lemma XorBits(a: bv8, b: bv8, j: nat)
    ensures IsSet(a ^ b, j) == (IsSet(a, j) != IsSet(b, j))
  {
    hide MaskOf, OneBit;
    MaskIsOneBit(j);
    MaskedXor(a, b, MaskOf(j));
  }

  lemma MaskIsOneBit(j: nat)
    ensures OneBit(MaskOf(j))
  {
  }

  lemma MaskedXor(a: bv8, b: bv8, m: bv8)
    requires OneBit(m)
    ensures ((a ^ b) & m != 0) == ((a & m != 0) != (b & m != 0))
  {
    assert (a ^ b) & m == (a & m) ^ (b & m);
    assert a & m == 0 || a & m == m;
    assert b & m == 0 || b & m == m;
  }

  /** If bit j of the code of data bit b says whether b is chosen, then bit j of a table entry is the parity of
      the chosen bits of the byte. */
  lemma EntryBit(a: bv8, i: nat, sel: Choice, j: nat)
    requires j < 7
    requires sel(i, 0) == IsSet(0x55, j) && sel(i, 1) == IsSet(0x56, j)
    requires sel(i, 2) == IsSet(0x59, j) && sel(i, 3) == IsSet(0x5a, j)
    requires sel(i, 4) == IsSet(0x65, j) && sel(i, 5) == IsSet(0x66, j)
    requires sel(i, 6) == IsSet(0x69, j) && sel(i, 7) == IsSet(0x6a, j)
    ensures IsSet(Precalc(a), j) == IsOdd(BitsOf(a, i, sel, 8))
  {
    hide *;
    TableIsColumn(a);
    ColumnBits(a, j);
    BitsUnfold(a, i, sel);
    LowChosen(a, i, sel, j);
    HighChosen(a, i, sel, j);
    OddOfEight(Chosen(a, i, sel, 0), Chosen(a, i, sel, 1), Chosen(a, i, sel, 2), Chosen(a, i, sel, 3),
               Chosen(a, i, sel, 4), Chosen(a, i, sel, 5), Chosen(a, i, sel, 6), Chosen(a, i, sel, 7));
  }

  lemma LowChosen(a: bv8, i: nat, sel: Choice, j: nat)
    requires j < 7
    requires sel(i, 0) == IsSet(0x55, j) && sel(i, 1) == IsSet(0x56, j)
    requires sel(i, 2) == IsSet(0x59, j) && sel(i, 3) == IsSet(0x5a, j)
    ensures IsSet(Low(a), j)
         == Xors(Chosen(a, i, sel, 0), Chosen(a, i, sel, 1), Chosen(a, i, sel, 2), Chosen(a, i, sel, 3))
  {
    hide IsSet, Low;
    LowBits(a, j);
  }

  lemma HighChosen(a: bv8, i: nat, sel: Choice, j: nat)
    requires j < 7
    requires sel(i, 4) == IsSet(0x65, j) && sel(i, 5) == IsSet(0x66, j)
    requires sel(i, 6) == IsSet(0x69, j) && sel(i, 7) == IsSet(0x6a, j)
    ensures IsSet(High(a), j)
         == Xors(Chosen(a, i, sel, 4), Chosen(a, i, sel, 5), Chosen(a, i, sel, 6), Chosen(a, i, sel, 7))
  {
    hide IsSet, High;
    HighBits(a, j);
  }

  lemma OddOfEight(p: bool, q: bool, r: bool, s: bool, t: bool, u: bool, v: bool, w: bool)
    ensures IsOdd(Sum4(p, q, r, s) + Sum4(t, u, v, w)) == (Xors(p, q, r, s) != Xors(t, u, v, w))
  {
    hide *;
    OddOfFour(p, q, r, s);
    OddOfFour(t, u, v, w);
    OddSum(Sum4(p, q, r, s), Sum4(t, u, v, w));
  }

  lemma ColumnBits(a: bv8, j: nat)
    ensures IsSet(Column(a), j) == (IsSet(Low(a), j) != IsSet(High(a), j))
  {
    hide Low, High;
    XorBits(Low(a), High(a), j);
  }

  lemma CodesAreDigits(i: nat, j: nat)
    requires j < 6
    ensures ColumnChoice(j)(i, 0) == IsSet(0x55, j) && ColumnChoice(j)(i, 1) == IsSet(0x56, j)
    ensures ColumnChoice(j)(i, 2) == IsSet(0x59, j) && ColumnChoice(j)(i, 3) == IsSet(0x5a, j)
    ensures ColumnChoice(j)(i, 4) == IsSet(0x65, j) && ColumnChoice(j)(i, 5) == IsSet(0x66, j)
    ensures ColumnChoice(j)(i, 6) == IsSet(0x69, j) && ColumnChoice(j)(i, 7) == IsSet(0x6a, j)
  {
  }

  lemma AllCounted()
    ensures IsSet(0x55, 6) && IsSet(0x56, 6) && IsSet(0x59, 6) && IsSet(0x5a, 6)
    ensures IsSet(0x65, 6) && IsSet(0x66, 6) && IsSet(0x69, 6) && IsSet(0x6a, 6)
  {
  }

  lemma {:induction false} NoneChosen(a: bv8, i: nat, sel: Choice, b: nat)
    requires forall c: nat :: c < b ==> !sel(i, c)
    ensures BitsOf(a, i, sel, b) == 0
  {
    if b > 0 { NoneChosen(a, i, sel, b - 1); }
  }

  lemma ByteDigit(n: nat, t: nat)
    requires n < 256 && t < 8
    ensures IsSet(ToByte(n), t) == Digit(n, t)
  {
    NibbleBits(n / 16);
    NibbleBits(n % 16);
    if t >= 4 { UpperDigits(n, t); } else { LowerDigits(n, t); }
    ShiftedBits(Nibble(n / 16), Nibble(n % 16), t);
    hide Nibble;
  }

  lemma ShiftedBits(hi: bv8, lo: bv8, t: nat)
    requires hi < 16 && lo < 16 && t < 8
    ensures IsSet((hi << 4) | lo, t) == if t >= 4 then IsSet(hi, t - 4) else IsSet(lo, t)
  {
  }

  lemma UpperDigits(n: nat, t: nat)
    requires n < 256 && 4 <= t < 8
    ensures Digit(n, t) == IntBit(n / 16, Weight(t - 4))
  {
  }

  lemma LowerDigits(n: nat, t: nat)
    requires n < 256 && t < 4
    ensures Digit(n, t) == IntBit(n % 16, Weight(t))
  {
    var q, r := n / 16, n % 16;
    if t == 0 { assert n / 1 == 16 * q + r; }
    else if t == 1 { assert n / 2 == 8 * q + r / 2; }
    else if t == 2 { assert n / 4 == 4 * q + r / 4; }
    else { assert n / 8 == 2 * q + r / 8; }
  }

  // ----- the registers -----

  lemma SixBitsKeep(e: bv8, j: nat)
    requires j < 6
    ensures IsSet(SixBits(e), j) == IsSet(e, j)
  {
  }

  lemma LineBits(e: bv8, i: bv8, t: nat)
    ensures IsSet(Bit(e, 0x40, i), t) == (IsSet(e, 6) && IsSet(i, t))
    ensures IsSet(Bit(e, 0x40, !i), t) == (IsSet(e, 6) && !IsSet(i, t))
  {
  }

  /** Bit j of the first register is the parity of the chosen columns so far. */
  lemma {:induction false} ColumnRegister(d: Block, j: nat, n: nat)
    requires j < 6 && n <= 256
    ensures IsSet(RegsOf(d, n).column, j) == IsOdd(Count(d, ColumnChoice(j), n))
  {
    hide IsSet, IsOdd, Xor, Precalc, ColumnChoice, SixBits, BitsOf, ToByte, Bit;
    if n == 0 {
      NothingSet(j);
    } else {
      ColumnRegister(d, j, n - 1);
      var e := Precalc(d[n - 1]);
      SixBitsKeep(e, j);
      CodesAreDigits(n - 1, j);
      EntryBit(d[n - 1], n - 1, ColumnChoice(j), j);
      ParityStep(RegsOf(d, n - 1).column, SixBits(e), j,
                 Count(d, ColumnChoice(j), n - 1), BitsOf(d[n - 1], n - 1, ColumnChoice(j), 8));
    }
  }

  lemma ParityStep(before: bv8, next: bv8, j: nat, count: nat, more: nat)
    requires IsSet(before, j) == IsOdd(count) && IsSet(next, j) == IsOdd(more)
    ensures IsSet(Xor(before, next), j) == IsOdd(count + more)
  {
    hide IsSet, IsOdd;
    XorBits(before, next, j);
    OddSum(count, more);
  }

  lemma NothingSet(j: nat)
    ensures !IsSet(0, j) && !IsOdd(0)
  {
  }

  lemma LineOfByte(a: bv8, i: nat, t: nat, odd: bool)
    requires i < 256 && t < 8
    ensures IsOdd(BitsOf(a, i, LineChoice(t, odd), 8)) == (IsSet(Precalc(a), 6) && IsSet(ToByte(i), t) == odd)
  {
    hide IsSet, Precalc, BitsOf, Digit, ToByte;
    ByteDigit(i, t);
    if Digit(i, t) == odd {
      AllCounted();
      EntryBit(a, i, LineChoice(t, odd), 6);
    } else {
      NoneChosen(a, i, LineChoice(t, odd), 8);
    }
  }

  /** Bit t of the other two registers is the parity of the bytes chosen so far. */
  lemma {:induction false} LineRegisters(d: Block, t: nat, n: nat)
    requires t < 8 && n <= 256
    ensures IsSet(RegsOf(d, n).odd, t) == IsOdd(Count(d, LineChoice(t, true), n))
    ensures IsSet(RegsOf(d, n).even, t) == IsOdd(Count(d, LineChoice(t, false), n))
  {
    hide IsSet, IsOdd, Xor, Precalc, LineChoice, SixBits, BitsOf, ToByte, Bit;
    if n == 0 {
      NothingSet(t);
    } else {
      LineRegisters(d, t, n - 1);
      var a, i, before := d[n - 1], ToByte(n - 1), RegsOf(d, n - 1);
      LineBits(Precalc(a), i, t);
      LineOfByte(a, n - 1, t, true);
      LineOfByte(a, n - 1, t, false);
      ParityStep(before.odd, Bit(Precalc(a), 0x40, i), t,
                 Count(d, LineChoice(t, true), n - 1), BitsOf(a, n - 1, LineChoice(t, true), 8));
      ParityStep(before.even, Bit(Precalc(a), 0x40, !i), t,
                 Count(d, LineChoice(t, false), n - 1), BitsOf(a, n - 1, LineChoice(t, false), 8));
    }
  }

  // ----- the code -----

  lemma ColumnByteBits(c: bv8, j: nat)
    requires j < 6
    ensures IsSet(ColumnByte(c), 0) && IsSet(ColumnByte(c), 1)
    ensures IsSet(ColumnByte(c), j + 2) == !IsSet(c, j)
  {
  }

  lemma WeaveBits(odd: bv8, even: bv8, u: nat)
    requires u < 4
    ensures IsSet(UpperWeave(odd, even), 2 * u + 1) == !IsSet(odd, u + 4)
    ensures IsSet(UpperWeave(odd, even), 2 * u) == !IsSet(even, u + 4)
    ensures IsSet(LowerWeave(odd, even), 2 * u + 1) == !IsSet(odd, u)
    ensures IsSet(LowerWeave(odd, even), 2 * u) == !IsSet(even, u)
  {
  }

  /** The third code byte ends in two set bits; each bit above is the complement of a column parity of the block. */
  lemma ColumnParities(d: Block, j: nat)
    requires j < 6
    ensures IsSet(EccOf(d).b2, 0) && IsSet(EccOf(d).b2, 1)
    ensures IsSet(EccOf(d).b2, j + 2) == !IsOdd(Count(d, ColumnChoice(j), 256))
  {
    hide IsSet, RegsOf, ColumnByte, UpperWeave, LowerWeave, ColumnChoice, Count, IsOdd;
    ColumnRegister(d, j, 256);
    ColumnByteBits(RegsOf(d, 256).column, j);
  }

  /** Each bit of the first two code bytes is the complement of a line parity: for each digit of the byte number,
      one bit for the bytes that have it and one for the bytes that have it not, high digits first. */
  lemma LineParities(d: Block, u: nat)
    requires u < 4
    ensures IsSet(EccOf(d).b0, 2 * u + 1) == !IsOdd(Count(d, LineChoice(u + 4, true), 256))
    ensures IsSet(EccOf(d).b0, 2 * u) == !IsOdd(Count(d, LineChoice(u + 4, false), 256))
    ensures IsSet(EccOf(d).b1, 2 * u + 1) == !IsOdd(Count(d, LineChoice(u, true), 256))
    ensures IsSet(EccOf(d).b1, 2 * u) == !IsOdd(Count(d, LineChoice(u, false), 256))
  {
    hide IsSet, RegsOf, ColumnByte, UpperWeave, LowerWeave, LineChoice, Count, IsOdd;
    LineRegisters(d, u, 256);
    LineRegisters(d, u + 4, 256);
    WeaveBits(RegsOf(d, 256).odd, RegsOf(d, 256).even, u);
  }

  lemma {:induction false} ErasedRegisters(d: Block, n: nat)
    requires n <= 256 && forall k :: 0 <= k < 256 ==> d[k] == 0xff
    ensures RegsOf(d, n) == Regs(0, 0, 0)
  {
    hide ToByte;
    if n > 0 {
      ErasedRegisters(d, n - 1);
      assert Precalc(0xff) == 0;
    }
  }

  /** An erased block has an erased code, so an erased page checks out. */
  lemma ErasedCode(d: Block)
    requires forall k :: 0 <= k < 256 ==> d[k] == 0xff
    ensures EccOf(d) == Ecc(0xff, 0xff, 0xff)
  {
    hide RegsOf;
    ErasedRegisters(d, 256);
  }
}
