/** The error correcting code of NAND pages: three bytes for each block of 256. */
module NandEcc {

  /** The 256-way column parity table, sixteen entries a row. */
  const ROWS: seq<seq<bv8>> := [
    [0x00, 0x55, 0x56, 0x03, 0x59, 0x0c, 0x0f, 0x5a, 0x5a, 0x0f, 0x0c, 0x59, 0x03, 0x56, 0x55, 0x00],
    [0x65, 0x30, 0x33, 0x66, 0x3c, 0x69, 0x6a, 0x3f, 0x3f, 0x6a, 0x69, 0x3c, 0x66, 0x33, 0x30, 0x65],
    [0x66, 0x33, 0x30, 0x65, 0x3f, 0x6a, 0x69, 0x3c, 0x3c, 0x69, 0x6a, 0x3f, 0x65, 0x30, 0x33, 0x66],
    [0x03, 0x56, 0x55, 0x00, 0x5a, 0x0f, 0x0c, 0x59, 0x59, 0x0c, 0x0f, 0x5a, 0x00, 0x55, 0x56, 0x03],
    [0x69, 0x3c, 0x3f, 0x6a, 0x30, 0x65, 0x66, 0x33, 0x33, 0x66, 0x65, 0x30, 0x6a, 0x3f, 0x3c, 0x69],
    [0x0c, 0x59, 0x5a, 0x0f, 0x55, 0x00, 0x03, 0x56, 0x56, 0x03, 0x00, 0x55, 0x0f, 0x5a, 0x59, 0x0c],
    [0x0f, 0x5a, 0x59, 0x0c, 0x56, 0x03, 0x00, 0x55, 0x55, 0x00, 0x03, 0x56, 0x0c, 0x59, 0x5a, 0x0f],
    [0x6a, 0x3f, 0x3c, 0x69, 0x33, 0x66, 0x65, 0x30, 0x30, 0x65, 0x66, 0x33, 0x69, 0x3c, 0x3f, 0x6a],
    [0x6a, 0x3f, 0x3c, 0x69, 0x33, 0x66, 0x65, 0x30, 0x30, 0x65, 0x66, 0x33, 0x69, 0x3c, 0x3f, 0x6a],
    [0x0f, 0x5a, 0x59, 0x0c, 0x56, 0x03, 0x00, 0x55, 0x55, 0x00, 0x03, 0x56, 0x0c, 0x59, 0x5a, 0x0f],
    [0x0c, 0x59, 0x5a, 0x0f, 0x55, 0x00, 0x03, 0x56, 0x56, 0x03, 0x00, 0x55, 0x0f, 0x5a, 0x59, 0x0c],
    [0x69, 0x3c, 0x3f, 0x6a, 0x30, 0x65, 0x66, 0x33, 0x33, 0x66, 0x65, 0x30, 0x6a, 0x3f, 0x3c, 0x69],
    [0x03, 0x56, 0x55, 0x00, 0x5a, 0x0f, 0x0c, 0x59, 0x59, 0x0c, 0x0f, 0x5a, 0x00, 0x55, 0x56, 0x03],
    [0x66, 0x33, 0x30, 0x65, 0x3f, 0x6a, 0x69, 0x3c, 0x3c, 0x69, 0x6a, 0x3f, 0x65, 0x30, 0x33, 0x66],
    [0x65, 0x30, 0x33, 0x66, 0x3c, 0x69, 0x6a, 0x3f, 0x3f, 0x6a, 0x69, 0x3c, 0x66, 0x33, 0x30, 0x65],
    [0x00, 0x55, 0x56, 0x03, 0x59, 0x0c, 0x0f, 0x5a, 0x5a, 0x0f, 0x0c, 0x59, 0x03, 0x56, 0x55, 0x00]
  ]

  lemma RowShape(r: nat)
    requires r < 16
    ensures |ROWS| == 16 && |ROWS[r]| == 16
  {
  }

  function Precalc(a: bv8): bv8 {
    var row := (a >> 4) as nat;
    RowShape(row);
    ROWS[row][(a & 15) as nat]
  }

  // ----- (uint8_t) i -----

  predicate IntBit(n: nat, w: nat)
    requires w > 0
  {
    n / w % 2 == 1
  }

  function Put(b: bool, m: bv8): bv8 { if b then m else 0 }

  function Nibble(n: nat): bv8 {
    Put(IntBit(n, 1), 1) | Put(IntBit(n, 2), 2) | Put(IntBit(n, 4), 4) | Put(IntBit(n, 8), 8)
  }

  /** An index below 256 as a byte. */
  function ToByte(n: nat): bv8
    requires n < 256
  {
    (Nibble(n / 16) << 4) | Nibble(n % 16)
  }

  lemma NibbleBits(n: nat)
    ensures Nibble(n) < 16
    ensures (Nibble(n) & 1 != 0 <==> IntBit(n, 1)) && (Nibble(n) & 2 != 0 <==> IntBit(n, 2))
    ensures (Nibble(n) & 4 != 0 <==> IntBit(n, 4)) && (Nibble(n) & 8 != 0 <==> IntBit(n, 8))
  {
    hide IntBit;
  }

  lemma NibbleInjective(n: nat, k: nat)
    requires n < 16 && k < 16 && Nibble(n) == Nibble(k)
    ensures n == k
  {
    NibbleBits(n);
    NibbleBits(k);
    hide Nibble;
    SameBits(n, k);
  }

  lemma SameBits(n: nat, k: nat)
    requires n < 16 && k < 16 && (IntBit(n, 1) <==> IntBit(k, 1)) && (IntBit(n, 2) <==> IntBit(k, 2))
    requires (IntBit(n, 4) <==> IntBit(k, 4)) && (IntBit(n, 8) <==> IntBit(k, 8))
    ensures n == k
  {
  }

  lemma HalvesOfByte(a: bv8, b: bv8, c: bv8, d: bv8)
    requires a < 16 && b < 16 && c < 16 && d < 16 && (a << 4) | b == (c << 4) | d
    ensures a == c && b == d
  {
  }

  lemma ToByteInjective(n: nat, k: nat)
    requires n < 256 && k < 256 && ToByte(n) == ToByte(k)
    ensures n == k
  {
    NibbleBits(n / 16);
    NibbleBits(n % 16);
    NibbleBits(k / 16);
    NibbleBits(k % 16);
    hide Nibble;
    HalvesOfByte(Nibble(n / 16), Nibble(n % 16), Nibble(k / 16), Nibble(k % 16));
    NibbleInjective(n / 16, k / 16);
    NibbleInjective(n % 16, k % 16);
  }

  // ----- what the table means -----

  function Bit(a: bv8, mask: bv8, code: bv8): bv8 { if a & mask != 0 then code else 0 }

  function Low(a: bv8): bv8 {
    Bit(a, 1, 0x55) ^ Bit(a, 2, 0x56) ^ Bit(a, 4, 0x59) ^ Bit(a, 8, 0x5a)
  }

  function High(a: bv8): bv8 {
    Bit(a, 16, 0x65) ^ Bit(a, 32, 0x66) ^ Bit(a, 64, 0x69) ^ Bit(a, 128, 0x6a)
  }

  function Column(a: bv8): bv8 {
    Low(a) ^ High(a)
  }

  /** Every entry is the exclusive or of one code per set bit: bits 0-5 are the column parities
      CP0-CP5, bit 6 is the parity of the byte. */
  lemma TableIsColumn(a: bv8)
    ensures Precalc(a) == Column(a)
  {
    hide Precalc, Column;
    if a < 0x40 { FirstQuarter(a); } else if a < 0x80 { SecondQuarter(a); }
    else if a < 0xc0 { ThirdQuarter(a); } else { LastQuarter(a); }
  }

  lemma FirstQuarter(a: bv8)
    requires a < 0x40
    ensures Precalc(a) == Column(a)
  {
  }

  lemma SecondQuarter(a: bv8)
    requires 0x40 <= a < 0x80
    ensures Precalc(a) == Column(a)
  {
  }

  lemma ThirdQuarter(a: bv8)
    requires 0x80 <= a < 0xc0
    ensures Precalc(a) == Column(a)
  {
  }

  lemma LastQuarter(a: bv8)
    requires 0xc0 <= a
    ensures Precalc(a) == Column(a)
  {
  }

  predicate OneBit(m: bv8) { m in {1, 2, 4, 8, 16, 32, 64, 128} }

  lemma BitXor(a: bv8, b: bv8, mask: bv8, code: bv8)
    requires OneBit(mask)
    ensures Bit(a ^ b, mask, code) == Bit(a, mask, code) ^ Bit(b, mask, code)
  {
    assert (a ^ b) & mask == (a & mask) ^ (b & mask);
    assert a & mask == 0 || a & mask == mask;
    assert b & mask == 0 || b & mask == mask;
  }

  lemma Regroup(a: bv8, a': bv8, b: bv8, b': bv8, c: bv8, c': bv8, d: bv8, d': bv8)
    ensures (a ^ a') ^ (b ^ b') ^ (c ^ c') ^ (d ^ d') == (a ^ b ^ c ^ d) ^ (a' ^ b' ^ c' ^ d')
  {
  }

  lemma LowXor(a: bv8, m: bv8)
    ensures Low(a ^ m) == Low(a) ^ Low(m)
  {
    BitXor(a, m, 1, 0x55); BitXor(a, m, 2, 0x56); BitXor(a, m, 4, 0x59); BitXor(a, m, 8, 0x5a);
    hide Bit;
    Regroup(Bit(a, 1, 0x55), Bit(m, 1, 0x55), Bit(a, 2, 0x56), Bit(m, 2, 0x56),
            Bit(a, 4, 0x59), Bit(m, 4, 0x59), Bit(a, 8, 0x5a), Bit(m, 8, 0x5a));
  }

  lemma HighXor(a: bv8, m: bv8)
    ensures High(a ^ m) == High(a) ^ High(m)
  {
    BitXor(a, m, 16, 0x65); BitXor(a, m, 32, 0x66); BitXor(a, m, 64, 0x69); BitXor(a, m, 128, 0x6a);
    hide Bit;
    Regroup(Bit(a, 16, 0x65), Bit(m, 16, 0x65), Bit(a, 32, 0x66), Bit(m, 32, 0x66),
            Bit(a, 64, 0x69), Bit(m, 64, 0x69), Bit(a, 128, 0x6a), Bit(m, 128, 0x6a));
  }

  lemma ColumnXor(a: bv8, m: bv8)
    ensures Column(a ^ m) == Column(a) ^ Column(m)
  {
    hide Low, High;
    LowXor(a, m);
    HighXor(a, m);
  }

  // ----- the registers -----

  type Block = s: seq<bv8> | |s| == 256 witness seq(256, _ => 0)

  datatype Regs = Regs(column: bv8, even: bv8, odd: bv8)

  function Xor(a: bv8, b: bv8): bv8 { a ^ b }

  function XorRegs(a: Regs, b: Regs): Regs {
    Regs(Xor(a.column, b.column), Xor(a.even, b.even), Xor(a.odd, b.odd))
  }

  function SixBits(e: bv8): (r: bv8)
    ensures r < 0x40
  {
    e & 0x3f
  }

  /** What byte i adds to reg1, reg2 and reg3 when its table entry is e. */
  function Contribution(i: bv8, e: bv8): Regs {
    Regs(SixBits(e), Bit(e, 0x40, !i), Bit(e, 0x40, i))
  }

  function RegsOf(d: Block, n: nat): Regs
    requires n <= 256
  {
    if n == 0 then Regs(0, 0, 0)
    else XorRegs(RegsOf(d, n - 1), Contribution(ToByte(n - 1), Precalc(d[n - 1])))
  }

  function Flip(d: Block, k: nat, m: bv8): Block
    requires k < 256
  {
    d[k := d[k] ^ m]
  }

  /** The effect of one flipped bit on the registers. */
  function Syndrome(k: nat, m: bv8): Regs
    requires k < 256
  {
    Contribution(ToByte(k), Column(m))
  }

  lemma ContributionFlip(i: bv8, a: bv8, m: bv8)
    ensures Contribution(i, Precalc(a ^ m)) == XorRegs(Contribution(i, Precalc(a)), Contribution(i, Column(m)))
  {
    hide *;
    TableIsColumn(a);
    TableIsColumn(a ^ m);
    ColumnXor(a, m);
    ContributionXor(i, Column(a), Column(m));
  }

  lemma ContributionXor(i: bv8, e: bv8, f: bv8)
    ensures Contribution(i, e ^ f) == XorRegs(Contribution(i, e), Contribution(i, f))
  {
    hide Bit, SixBits;
    BitXor(e, f, 0x40, i);
    BitXor(e, f, 0x40, !i);
    SixBitsXor(e, f);
  }

  lemma SixBitsXor(e: bv8, f: bv8)
    ensures SixBits(e ^ f) == SixBits(e) ^ SixBits(f)
  {
  }

  lemma XorMoves(a: bv8, b: bv8, c: bv8)
    ensures Xor(Xor(a, b), c) == Xor(Xor(a, c), b) == Xor(a, Xor(b, c))
  {
  }

  lemma XorRegsMoves(a: Regs, b: Regs, c: Regs)
    ensures XorRegs(XorRegs(a, b), c) == XorRegs(XorRegs(a, c), b) == XorRegs(a, XorRegs(b, c))
  {
    hide Xor;
    XorMoves(a.column, b.column, c.column);
    XorMoves(a.even, b.even, c.even);
    XorMoves(a.odd, b.odd, c.odd);
  }

  lemma FlipHere(d: Block, k: nat, m: bv8)
    requires k < 256 && RegsOf(Flip(d, k, m), k) == RegsOf(d, k)
    ensures RegsOf(Flip(d, k, m), k + 1) == XorRegs(RegsOf(d, k + 1), Syndrome(k, m))
  {
    hide Precalc, Contribution, XorRegs, Column, ToByte;
    ContributionFlip(ToByte(k), d[k], m);
    XorRegsMoves(RegsOf(d, k), Contribution(ToByte(k), Precalc(d[k])), Syndrome(k, m));
  }

  lemma FlipBefore(d: Block, k: nat, m: bv8, n: nat)
    requires k < n < 256 && RegsOf(Flip(d, k, m), n) == XorRegs(RegsOf(d, n), Syndrome(k, m))
    ensures RegsOf(Flip(d, k, m), n + 1) == XorRegs(RegsOf(d, n + 1), Syndrome(k, m))
  {
    hide Precalc, Contribution, XorRegs, Column, ToByte, Syndrome;
    assert Flip(d, k, m)[n] == d[n];
    XorRegsMoves(RegsOf(d, n), Contribution(ToByte(n), Precalc(d[n])), Syndrome(k, m));
  }

  /** Flipping bits of one byte shifts the registers by a syndrome that does not depend on the rest of the block. */
  lemma {:induction false} FlipShifts(d: Block, k: nat, m: bv8, n: nat)
    requires k < 256 && n <= 256
    ensures RegsOf(Flip(d, k, m), n) == if n <= k then RegsOf(d, n) else XorRegs(RegsOf(d, n), Syndrome(k, m))
  {
    if n > 0 {
      FlipShifts(d, k, m, n - 1);
      if n - 1 == k {
        FlipHere(d, k, m);
      } else if n > k {
        FlipBefore(d, k, m, n - 1);
      } else {
        assert Flip(d, k, m)[n - 1] == d[n - 1];
      }
    }
  }

  // ----- the three code bytes -----

  datatype Ecc = Ecc(b0: bv8, b1: bv8, b2: bv8)

  /** tmp1 and tmp2: two nibbles, the bits of odd and even side by side. */
  function Weave(odd: bv8, even: bv8): bv8 {
    ((odd & 8) << 4) | ((even & 8) << 3) | ((odd & 4) << 3) | ((even & 4) << 2)
    | ((odd & 2) << 2) | ((even & 2) << 1) | ((odd & 1) << 1) | (even & 1)
  }

  function UpperWeave(odd: bv8, even: bv8): bv8 { !Weave(odd >> 4, even >> 4) }

  function LowerWeave(odd: bv8, even: bv8): bv8 { !Weave(odd & 15, even & 15) }

  function ColumnByte(column: bv8): bv8 { ((!column) << 2) | 3 }

  function Pack(r: Regs): Ecc {
    Ecc(UpperWeave(r.odd, r.even), LowerWeave(r.odd, r.even), ColumnByte(r.column))
  }

  function XorEcc(a: Ecc, b: Ecc): Ecc {
    Ecc(a.b0 ^ b.b0, a.b1 ^ b.b1, a.b2 ^ b.b2)
  }

  function EccOf(d: Block): Ecc {
    Pack(RegsOf(d, 256))
  }

  /** Every second bit, starting with the lowest. */
  function Unweave(w: bv8): bv8 {
    (w & 1) | ((w & 4) >> 1) | ((w & 16) >> 2) | ((w & 64) >> 3)
  }

  function Join(hi: bv8, lo: bv8): bv8 { (hi << 4) | lo }

  /** The register differences that a difference of codes stands for. */
  function Unpack(x: Ecc): Regs {
    Regs(x.b2 >> 2, Join(Unweave(x.b0), Unweave(x.b1)), Join(Unweave(x.b0 >> 1), Unweave(x.b1 >> 1)))
  }

  lemma UpperDiffers(odd: bv8, even: bv8, odd': bv8, even': bv8)
    ensures var w := UpperWeave(odd, even) ^ UpperWeave(odd', even');
      Unweave(w) == (even ^ even') >> 4 && Unweave(w >> 1) == (odd ^ odd') >> 4
  {
  }

  lemma LowerDiffers(odd: bv8, even: bv8, odd': bv8, even': bv8)
    ensures var w := LowerWeave(odd, even) ^ LowerWeave(odd', even');
      Unweave(w) == (even ^ even') & 15 && Unweave(w >> 1) == (odd ^ odd') & 15
  {
  }

  lemma ColumnDiffers(c: bv8, c': bv8)
    requires c < 0x40 && c' < 0x40
    ensures (ColumnByte(c) ^ ColumnByte(c')) >> 2 == c ^ c'
  {
  }

  lemma JoinNibbles(a: bv8)
    ensures Join(a >> 4, a & 15) == a
  {
  }

  lemma UnpackColumn(r: Regs, s: Regs)
    requires r.column < 0x40 && s.column < 0x40
    ensures Unpack(XorEcc(Pack(r), Pack(s))).column == r.column ^ s.column
  {
    hide UpperWeave, LowerWeave, Unweave, Join, ColumnByte;
    ColumnDiffers(r.column, s.column);
  }

  lemma UnpackLines(r: Regs, s: Regs)
    ensures var x := Unpack(XorEcc(Pack(r), Pack(s))); x.even == r.even ^ s.even && x.odd == r.odd ^ s.odd
  {
    hide UpperWeave, LowerWeave, Unweave, Join, ColumnByte;
    LinesDiffer(r.odd, r.even, s.odd, s.even);
  }

  /** Nothing is lost on the way into the code: register differences can be read off. */
  lemma UnpackOfPack(r: Regs, s: Regs)
    requires r.column < 0x40 && s.column < 0x40
    ensures Unpack(XorEcc(Pack(r), Pack(s))) == XorRegs(r, s)
  {
    hide Unpack, Pack, XorEcc;
    UnpackColumn(r, s);
    UnpackLines(r, s);
  }

  lemma LinesDiffer(odd: bv8, even: bv8, odd': bv8, even': bv8)
    ensures var u := UpperWeave(odd, even) ^ UpperWeave(odd', even');
      var l := LowerWeave(odd, even) ^ LowerWeave(odd', even');
      Join(Unweave(u), Unweave(l)) == even ^ even' && Join(Unweave(u >> 1), Unweave(l >> 1)) == odd ^ odd'
  {
    hide UpperWeave, LowerWeave, Unweave, Join;
    UpperDiffers(odd, even, odd', even');
    LowerDiffers(odd, even, odd', even');
    JoinNibbles(odd ^ odd');
    JoinNibbles(even ^ even');
  }

  lemma {:induction false} ColumnIsSixBits(d: Block, n: nat)
    requires n <= 256
    ensures RegsOf(d, n).column < 0x40
  {
    if n > 0 {
      ColumnIsSixBits(d, n - 1);
      XorOfSixBits(RegsOf(d, n - 1).column, SixBits(Precalc(d[n - 1])));
    }
  }

  lemma XorOfSixBits(a: bv8, b: bv8)
    requires a < 0x40 && b < 0x40
    ensures a ^ b < 0x40
  {
  }

  // ----- locating errors -----

  /** The mask of the flipped bit, from the three odd column parities. */
  function BitAt(column: bv8): bv8 {
    (if column & 0x20 != 0 then 16 else 1) * (if column & 0x08 != 0 then 4 else 1)
    * (if column & 0x02 != 0 then 2 else 1)
  }

  /** The code difference after one bit has flipped names the byte and the bit. */
  lemma OneFlipIsLocated(d: Block, k: nat, m: bv8)
    requires k < 256 && OneBit(m)
    ensures var x := Unpack(XorEcc(EccOf(d), EccOf(Flip(d, k, m))));
      x.odd == ToByte(k) && BitAt(x.column) == m && x.even == !x.odd
    ensures EccOf(d) != EccOf(Flip(d, k, m))
  {
    hide RegsOf, Pack, Unpack, XorRegs, XorEcc, Column, BitAt, Contribution, Precalc, OneBit;
    FlipShifts(d, k, m, 256);
    ColumnIsSixBits(d, 256);
    ColumnIsSixBits(Flip(d, k, m), 256);
    UnpackOfPack(RegsOf(d, 256), RegsOf(Flip(d, k, m), 256));
    XorRegsCancel(RegsOf(d, 256), Syndrome(k, m));
    SyndromeOfBit(ToByte(k), m);
    SameEccSameZero(EccOf(d));
    NotItsComplement(ToByte(k));
  }

  lemma NotItsComplement(a: bv8)
    ensures !(a == 0 && !a == 0)
  {
  }

  lemma XorRegsCancel(a: Regs, s: Regs)
    ensures XorRegs(a, XorRegs(a, s)) == s
  {
  }

  lemma SyndromeOfBit(i: bv8, m: bv8)
    requires OneBit(m)
    ensures var s := Contribution(i, Column(m)); s.odd == i && s.even == !i && BitAt(s.column) == m
  {
  }

  /** Two flipped bits change the code, and the difference cannot be taken for a single flip. */
  lemma TwoFlipsAreSeen(d: Block, k: nat, m: bv8, k': nat, m': bv8)
    requires k < 256 && k' < 256 && OneBit(m) && OneBit(m') && (k != k' || m != m')
    ensures var x := Unpack(XorEcc(EccOf(d), EccOf(Flip(Flip(d, k, m), k', m'))));
      x != Regs(0, 0, 0) && x.even == x.odd
    ensures EccOf(d) != EccOf(Flip(Flip(d, k, m), k', m'))
  {
    hide RegsOf, Pack, Unpack, XorRegs, XorEcc, Column, BitAt, Contribution, Precalc, OneBit;
    var e := Flip(d, k, m);
    FlipShifts(d, k, m, 256);
    FlipShifts(e, k', m', 256);
    ColumnIsSixBits(d, 256);
    ColumnIsSixBits(Flip(e, k', m'), 256);
    UnpackOfPack(RegsOf(d, 256), RegsOf(Flip(e, k', m'), 256));
    XorRegsMoves(RegsOf(d, 256), Syndrome(k, m), Syndrome(k', m'));
    XorRegsCancel(RegsOf(d, 256), XorRegs(Syndrome(k, m), Syndrome(k', m')));
    SyndromeOfBit(ToByte(k), m);
    SyndromeOfBit(ToByte(k'), m');
    if ToByte(k) == ToByte(k') { ToByteInjective(k, k'); }
    TwoSyndromes(ToByte(k), m, ToByte(k'), m');
    SameEccSameZero(EccOf(d));
  }

  lemma SameEccSameZero(x: Ecc)
    ensures Unpack(XorEcc(x, x)) == Regs(0, 0, 0)
  {
  }

  lemma XorZero(a: bv8, b: bv8)
    ensures a ^ b == 0 <==> a == b
    ensures !a ^ !b == a ^ b
  {
  }

  lemma TwoSyndromes(i: bv8, m: bv8, i': bv8, m': bv8)
    requires OneBit(m) && OneBit(m') && (i != i' || m != m')
    ensures var s := XorRegs(Contribution(i, Column(m)), Contribution(i', Column(m')));
      s != Regs(0, 0, 0) && s.even == s.odd
  {
    hide Column, BitAt, Contribution, OneBit;
    SyndromeOfBit(i, m);
    SyndromeOfBit(i', m');
    TwoRegs(Contribution(i, Column(m)), Contribution(i', Column(m')));
  }

  lemma TwoRegs(s: Regs, t: Regs)
    requires s.even == !s.odd && t.even == !t.odd && (s.odd != t.odd || BitAt(s.column) != BitAt(t.column))
    ensures XorRegs(s, t) != Regs(0, 0, 0) && XorRegs(s, t).even == XorRegs(s, t).odd
  {
    hide BitAt;
    XorZero(s.odd, t.odd);
    XorZero(s.column, t.column);
  }

  // ----- the loop -----

  /** The body of the loop. */
  method Accumulate(r1: bv8, r2: bv8, r3: bv8, i: bv8, idx: bv8) returns (reg1: bv8, reg2: bv8, reg3: bv8)
    ensures Regs(reg1, reg2, reg3) == XorRegs(Regs(r1, r2, r3), Contribution(i, idx))
  {
    hide SixBits, Xor, Bit;
    SixBitsAdd(idx, r1);
    BitAdds(idx, 0x40, !i, r2);
    BitAdds(idx, 0x40, i, r3);
    reg1, reg2, reg3 := r1 ^ (idx & 0x3f), r2, r3;
    if idx & 0x40 != 0 {
      reg3 := reg3 ^ i;
      reg2 := reg2 ^ !i;
    }
  }

  lemma SixBitsAdd(e: bv8, r: bv8)
    ensures Xor(r, SixBits(e)) == r ^ (e & 0x3f)
  {
  }

  lemma BitAdds(e: bv8, mask: bv8, b: bv8, r: bv8)
    ensures Xor(r, Bit(e, mask, b)) == if e & mask != 0 then r ^ b else r
  {
  }

  method CalculateEcc(dat: seq<bv8>, eccCode: array<bv8>)
    requires |dat| == 256 && eccCode.Length >= 3
    modifies eccCode
    ensures Ecc(eccCode[0], eccCode[1], eccCode[2]) == EccOf(dat)
    ensures eccCode[3..] == old(eccCode[3..])
  {
    hide Precalc, Pack, Contribution, XorRegs;
    var reg1: bv8, reg2: bv8, reg3: bv8 := 0, 0, 0;
    for i := 0 to 256
      invariant Regs(reg1, reg2, reg3) == RegsOf(dat, i) && eccCode[..] == old(eccCode[..])
    {
      var idx := Precalc(dat[i]);
      reg1, reg2, reg3 := Accumulate(reg1, reg2, reg3, ToByte(i), idx);
    }
    assert eccCode[3..] == eccCode[..][3..];
    Store(reg1, reg2, reg3, eccCode);
  }

  /** The line parity bytes, built bit by bit. */
  method LineParity(reg2: bv8, reg3: bv8) returns (tmp1: bv8, tmp2: bv8)
    ensures !tmp1 == UpperWeave(reg3, reg2) && !tmp2 == LowerWeave(reg3, reg2)
  {
    tmp1 := reg3 & 0x80;
    tmp1 := tmp1 | ((reg2 & 0x80) >> 1);
    tmp1 := tmp1 | ((reg3 & 0x40) >> 1);
    tmp1 := tmp1 | ((reg2 & 0x40) >> 2);
    tmp1 := tmp1 | ((reg3 & 0x20) >> 2);
    tmp1 := tmp1 | ((reg2 & 0x20) >> 3);
    tmp1 := tmp1 | ((reg3 & 0x10) >> 3);
    tmp1 := tmp1 | ((reg2 & 0x10) >> 4);

    tmp2 := (reg3 & 0x08) << 4;
    tmp2 := tmp2 | ((reg2 & 0x08) << 3);
    tmp2 := tmp2 | ((reg3 & 0x04) << 3);
    tmp2 := tmp2 | ((reg2 & 0x04) << 2);
    tmp2 := tmp2 | ((reg3 & 0x02) << 2);
    tmp2 := tmp2 | ((reg2 & 0x02) << 1);
    tmp2 := tmp2 | ((reg3 & 0x01) << 1);
    tmp2 := tmp2 | (reg2 & 0x01);
  }

  method Store(reg1: bv8, reg2: bv8, reg3: bv8, eccCode: array<bv8>)
    requires eccCode.Length >= 3
    modifies eccCode
    ensures Ecc(eccCode[0], eccCode[1], eccCode[2]) == Pack(Regs(reg1, reg2, reg3))
    ensures eccCode[3..] == old(eccCode[3..])
  {
    hide UpperWeave, LowerWeave;
    var tmp1, tmp2 := LineParity(reg2, reg3);
    eccCode[0] := !tmp1;
    eccCode[1] := !tmp2;
    eccCode[2] := ((!reg1) << 2) | 3;
  }
}
