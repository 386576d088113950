/** Bytes and the ways the firmware tools group them into words. */
module Bytes {

  type Byte = x: int | 0 <= x < 256

  function Pair(hi: int, lo: int): int {
    hi * 256 + lo
  }

  /** Two bytes, high byte first. */
  function Be16(w: nat): (r: seq<Byte>)
    requires w < 0x1_0000
    ensures |r| == 2 && Pair(r[0], r[1]) == w
  {
    [w / 256, w % 256]
  }

  const TWO_TO_32: nat := 0x1_0000_0000

  type Word32 = x: int | 0 <= x < TWO_TO_32

  /** Data >> (i * 8), cut to a byte. */
  function ByteAt(w: nat, i: nat): Byte
    decreases i
  {
    if i == 0 then w % 256 else ByteAt(w / 256, i - 1)
  }

  /** Four bytes, low byte first. */
  function Le32(w: Word32): (r: seq<Byte>)
    ensures |r| == 4
  {
    [ByteAt(w, 0), ByteAt(w, 1), ByteAt(w, 2), ByteAt(w, 3)]
  }

  function FromLe32(s: seq<Byte>): Word32
    requires |s| == 4
  {
    Pair(Pair(Pair(s[3], s[2]), s[1]), s[0])
  }

  lemma FromLe32OfLe32(w: Word32)
    ensures FromLe32(Le32(w)) == w
  {
    var a, b, c := w / 256, w / 256 / 256, w / 256 / 256 / 256;
    ByteAtShifts(w, 0);
    ByteAtShifts(w, 1);
    ByteAtShifts(a, 0);
    ByteAtShifts(w, 2);
    ByteAtShifts(a, 1);
    ByteAtShifts(b, 0);
    PairSplits(w, 0x100_0000);
    PairSplits(a, 0x1_0000);
    PairSplits(b, 256);
    hide ByteAt, Pair;
  }

  lemma ByteAtShifts(w: nat, i: nat)
    ensures ByteAt(w, i + 1) == ByteAt(w / 256, i)
    ensures w < 256 ==> ByteAt(w, 0) == w
  {
  }

  lemma PairSplits(w: nat, n: nat)
    requires w < 256 * n
    ensures w / 256 < n && Pair(w / 256, ByteAt(w, 0)) == w
  {
  }
}
