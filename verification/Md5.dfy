/** MD5 buffering and padding around a block function that is left open. */
module Md5 {

  import opened BlockHash
  import opened Bytes

  datatype State = State(a: Word32, b: Word32, c: Word32, d: Word32)

  /** Transform: what one block of sixteen words does to the four words of the state. */
  type BlockFunction = (State, seq<Word32>) -> State

  /** Section 3.3 of RFC 1321. */
  const INITIAL := State(0x67452301, 0xefcdab89, 0x98badcfe, 0x10325476)

  // ----- sections 3.1, 3.2, 3.4 and 3.5 of RFC 1321 -----

  /** Words are stored low byte first. */
  function Words(bytes: seq<Byte>): (r: seq<Word32>)
    requires |bytes| % 4 == 0
    ensures |r| == |bytes| / 4
  {
    seq(|bytes| / 4, i requires 0 <= i < |bytes| / 4 => FromLe32(bytes[4 * i..4 * i + 4]))
  }

  lemma WordsAppend(s: seq<Byte>, w: seq<Byte>)
    requires |s| % 4 == 0 && |w| == 4
    ensures Words(s + w) == Words(s) + [FromLe32(w)]
  {
    hide FromLe32;
    var n := |s| / 4;
    assert (s + w)[4 * n..4 * n + 4] == w;
    forall k | 0 <= k < n ensures (s + w)[4 * k..4 * k + 4] == s[4 * k..4 * k + 4] {
    }
  }

  function Compress(f: BlockFunction): (State, seq<Byte>) -> State {
    (s: State, block: seq<Byte>) => if |block| == BLOCK then f(s, Words(block)) else s
  }

  /** The length in bits, low word first, modulo 2^64. */
  function LengthBytes(n: nat): (r: seq<Byte>)
    ensures |r| == 8
  {
    Le32(8 * n % TWO_TO_32) + Le32(8 * n / TWO_TO_32 % TWO_TO_32)
  }

  function Output(s: State): seq<Byte> {
    Le32(s.a) + Le32(s.b) + Le32(s.c) + Le32(s.d)
  }

  function Digest(f: BlockFunction, m: seq<Byte>): seq<Byte> {
    Output(Fold(Compress(f), INITIAL, Padded(m, 0x80, 0, LengthBytes(|m|))))
  }

  /** The words the state starts with, as section 3.3 of RFC 1321 lists them: byte by byte, low bytes first. */
  lemma InitialBytes()
    ensures Output(INITIAL) == [
      0x01, 0x23, 0x45, 0x67, 0x89, 0xab, 0xcd, 0xef,
      0xfe, 0xdc, 0xba, 0x98, 0x76, 0x54, 0x32, 0x10]
  {
    assert Le32(0x67452301) == [0x01, 0x23, 0x45, 0x67];
    assert Le32(0xefcdab89) == [0x89, 0xab, 0xcd, 0xef];
    assert Le32(0x98badcfe) == [0xfe, 0xdc, 0xba, 0x98];
    assert Le32(0x10325476) == [0x76, 0x54, 0x32, 0x10];
  }

  // ----- the context -----

  lemma AddBits(n: nat, k: nat)
    requires k < TWO_TO_32
    ensures var lo, add := 8 * n % TWO_TO_32, 8 * k % TWO_TO_32;
      (lo + add) % TWO_TO_32 == 8 * (n + k) % TWO_TO_32
    ensures var lo, add := 8 * n % TWO_TO_32, 8 * k % TWO_TO_32;
      8 * (n + k) / TWO_TO_32 == 8 * n / TWO_TO_32 + k / 0x2000_0000 + if (lo + add) % TWO_TO_32 < lo then 1 else 0
  {
    var lo, add := 8 * n % TWO_TO_32, 8 * k % TWO_TO_32;
    assert 8 * k / TWO_TO_32 == k / 0x2000_0000;
    assert 8 * (n + k) == (8 * n / TWO_TO_32 + 8 * k / TWO_TO_32) * TWO_TO_32 + (lo + add);
  }

  class Context {
    const transform: BlockFunction
    var i0: Word32
    var i1: Word32
    var buf: State
    const input: array<Byte>

    /** State and buffer after the bytes m. */
    ghost predicate Absorbed(m: seq<Byte>)
      reads this, input
    {
      && input.Length == BLOCK
      && buf == Fold(Compress(transform), INITIAL, Whole(m)) && input[..|m| % BLOCK] == Tail(m)
    }

    ghost predicate Holds(m: seq<Byte>)
      reads this, input
    {
      Absorbed(m) && Counts(|m|)
    }

    /** MD5_Init. */
    constructor (f: BlockFunction)
      ensures Holds([]) && transform == f && fresh(input)
    {
      transform, i0, i1, buf := f, 0, 0, INITIAL;
      input := new Byte[BLOCK](_ => 0);
    }

    /** The loop that puts the first n words of the buffer together. */
    method Load(n: nat) returns (words: seq<Word32>)
      requires n <= 16 && input.Length == BLOCK
      ensures words == Words(input[..4 * n])
    {
      words := [];
      for i := 0 to n
        invariant words == Words(input[..4 * i])
      {
        var ii := 4 * i;
        words := words + [Pair(Pair(Pair(input[ii + 3], input[ii + 2]), input[ii + 1]), input[ii])];
        assert words[i] == FromLe32(input[ii..ii + 4]);
        assert input[..ii + 4] == input[..ii] + input[ii..ii + 4];
        WordsAppend(input[..ii], input[ii..ii + 4]);
      }
    }

    /** One character: the block function runs when the buffer is full. */
    method AddByte(mdi: nat, c: Byte, ghost m: seq<Byte>) returns (r: nat)
      requires Absorbed(m) && mdi == |m| % BLOCK
      modifies this`buf, input
      ensures Absorbed(m + [c]) && r == |m + [c]| % BLOCK
    {
      hide Fold, Whole, Tail, Words;
      input[mdi] := c;
      r := mdi + 1;
      assert input[..mdi + 1] == Tail(m) + [c];
      if r == 0x40 {
        var words := Load(16);
        assert input[..64] == input[..];
        buf := transform(buf, words);
        Filled(m, [c]);
        FoldBlock(Compress(transform), INITIAL, Whole(m), Tail(m) + [c]);
        r := 0;
      } else {
        Short(m, [c]);
      }
    }

    /** The number of bits in two words. */
    ghost predicate Counts(n: nat)
      reads this
    {
      i0 == 8 * n % TWO_TO_32 && i1 == 8 * n / TWO_TO_32 % TWO_TO_32
    }

    method CountBits(inLen: nat, ghost n: nat)
      requires Counts(n) && inLen < TWO_TO_32
      modifies this`i0, this`i1
      ensures Counts(n + inLen)
    {
      AddBits(n, inLen);
      var bits := 8 * inLen % TWO_TO_32;
      var carry := if (i0 + bits) % TWO_TO_32 < i0 then 1 else 0;
      AddHigh(8 * n / TWO_TO_32, carry, inLen / 0x2000_0000);
      i1 := (i1 + carry) % TWO_TO_32;
      i0 := (i0 + bits) % TWO_TO_32;
      i1 := (i1 + inLen / 0x2000_0000) % TWO_TO_32;
    }

    /** MD5_Update. */
    method Update(inBuf: seq<Byte>, ghost m: seq<Byte>)
      requires Holds(m) && |inBuf| < TWO_TO_32
      modifies this`i0, this`i1, this`buf, input
      ensures Holds(m + inBuf)
    {
      hide Fold, Whole, Tail, Words;
      BufferPlace(|m|);
      var mdi: nat := i0 / 8 % 64;
      CountBits(|inBuf|, |m|);
      AddBytes(inBuf, mdi, m);
    }

    /** The loop over the characters. */
    method AddBytes(inBuf: seq<Byte>, from: nat, ghost m: seq<Byte>)
      requires Absorbed(m) && from == |m| % BLOCK
      modifies this`buf, input
      ensures Absorbed(m + inBuf)
    {
      hide Fold, Whole, Tail, Words;
      var mdi := from;
      assert m + inBuf[..0] == m;
      for at := 0 to |inBuf|
        invariant Absorbed(m + inBuf[..at]) && mdi == |m + inBuf[..at]| % BLOCK
      {
        mdi := AddByte(mdi, inBuf[at], m + inBuf[..at]);
        assert m + inBuf[..at] + [inBuf[at]] == m + inBuf[..at + 1];
      }
      assert inBuf[..|inBuf|] == inBuf;
    }

    /** MD5_Final. */
    method Final(ghost m: seq<Byte>) returns (hash: seq<Byte>)
      requires Holds(m)
      modifies this`i0, this`i1, this`buf, input
      ensures hash == Digest(transform, m)
    {
      hide Fold, Whole, Tail, Words, Padding, Le32;
      var in14, in15 := i0, i1;
      BufferPlace(|m|);
      var mdi: nat := i0 / 8 % 64;
      var padLen := if mdi < 56 then 56 - mdi else 120 - mdi;
      assert padLen == PadLength(|m|);
      Update(Padding(padLen, 0x80, 0), m);
      LastBlock(in14, in15, m + Padding(padLen, 0x80, 0));
      hash := Le32(buf.a) + Le32(buf.b) + Le32(buf.c) + Le32(buf.d);
    }

    /** The last block: fourteen words from the buffer and the two words of the length. */
    method LastBlock(in14: Word32, in15: Word32, ghost p: seq<Byte>)
      requires Absorbed(p) && |p| % BLOCK == 56
      modifies this`buf
      ensures buf == Fold(Compress(transform), INITIAL, p + (Le32(in14) + Le32(in15)))
    {
      hide Fold, Whole, Tail, Words, Le32;
      var words := Load(14);
      buf := transform(buf, words + [in14, in15]);
      ghost var length := Le32(in14) + Le32(in15);
      WordsOfLast(input[..56], in14, in15);
      Filled(p, length);
      FoldBlock(Compress(transform), INITIAL, Whole(p), Tail(p) + length);
      assert |Tail(p) + length| == BLOCK;
    }
  }

  lemma BufferPlace(n: nat)
    ensures 8 * n % TWO_TO_32 / 8 % 64 == n % BLOCK
  {
    assert 8 * n % TWO_TO_32 == 8 * (n % 0x2000_0000);
  }

  lemma AddHigh(h: nat, carry: nat, k: nat)
    ensures ((h % TWO_TO_32 + carry) % TWO_TO_32 + k) % TWO_TO_32 == (h + k + carry) % TWO_TO_32
  {
    AddMod(h, carry);
    AddMod(h + carry, k);
  }

  lemma AddMod(x: nat, y: nat)
    ensures (x % TWO_TO_32 + y) % TWO_TO_32 == (x + y) % TWO_TO_32
  {
  }

  lemma WordsOfLast(b: seq<Byte>, in14: Word32, in15: Word32)
    requires |b| == 56
    ensures Words(b + (Le32(in14) + Le32(in15))) == Words(b) + [in14, in15]
  {
    var all := b + (Le32(in14) + Le32(in15));
    FromLe32OfLe32(in14);
    FromLe32OfLe32(in15);
    hide FromLe32, Le32;
    assert all[56..60] == Le32(in14) && all[60..64] == Le32(in15);
    forall i | 0 <= i < 14 ensures all[4 * i..4 * i + 4] == b[4 * i..4 * i + 4] {
    }
    assert forall i :: 0 <= i < 16 ==> Words(all)[i] == (Words(b) + [in14, in15])[i];
  }
}
