/** SHA-1 with unsigned longs that may be wider than 32 bits, sixteen schedule words in a circle, and
    input in pieces of any length. */
module Sha1 {

  import opened BlockHash

  type Octet = bv8

  // ----- operations on 32-bit words -----

  function Add32(x: bv32, y: bv32): bv32 { x + y }

  function Or32(x: bv32, y: bv32): bv32 { x | y }

  /** Shifts to the left by 1, 5 and 30 and the shifts to the right that bring the rest back. */
  function Left1(x: bv32): bv32 { x << 1 }

  function Left5(x: bv32): bv32 { x << 5 }

  function Left30(x: bv32): bv32 { x << 30 }

  function Right31(x: bv32): bv32 { x >> 31 }

  function Right27(x: bv32): bv32 { x >> 27 }

  function Right2(x: bv32): bv32 { x >> 2 }

  // ----- section 7 of FIPS 180-1: eighty words of schedule -----

  function Rotl1(x: bv32): bv32 { Or32(Left1(x), Right31(x)) }

  function Rotl5(x: bv32): bv32 { Or32(Left5(x), Right27(x)) }

  function Rotl30(x: bv32): bv32 { Or32(Left30(x), Right2(x)) }

  function Choose(b: bv32, c: bv32, d: bv32): bv32 { (b & c) | (!b & d) }

  function Parity(b: bv32, c: bv32, d: bv32): bv32 { b ^ c ^ d }

  function Majority(b: bv32, c: bv32, d: bv32): bv32 { (b & c) | (b & d) | (c & d) }

  function Mixed(t: nat, b: bv32, c: bv32, d: bv32): bv32 {
    if t < 20 then Choose(b, c, d) else if 40 <= t < 60 then Majority(b, c, d) else Parity(b, c, d)
  }

  function Constant(t: nat): bv32 {
    if t < 20 then 0x5A827999 else if t < 40 then 0x6ED9EBA1 else if t < 60 then 0x8F1BBCDC else 0xCA62C1D6
  }

  /** Four bytes, high byte first. */
  function Word(b: seq<Octet>, i: nat): bv32
    requires i + 4 <= |b|
  {
    ((b[i] as bv32) << 24) | ((b[i + 1] as bv32) << 16) | ((b[i + 2] as bv32) << 8) | (b[i + 3] as bv32)
  }

  function Xor4(a: bv32, b: bv32, c: bv32, d: bv32): bv32 { a ^ b ^ c ^ d }

  function Schedule(block: seq<Octet>, t: nat): bv32
    requires |block| == BLOCK
  {
    if t < 16 then Word(block, 4 * t)
    else Rotl1(Xor4(Schedule(block, t - 3), Schedule(block, t - 8), Schedule(block, t - 14), Schedule(block, t - 16)))
  }

  datatype Regs = Regs(a: bv32, b: bv32, c: bv32, d: bv32, e: bv32)

  function Sum5(a: bv32, f: bv32, e: bv32, k: bv32, w: bv32): bv32 { a + f + e + k + w }

  function Round(r: Regs, t: nat, w: bv32): Regs {
    Regs(Sum5(Rotl5(r.a), Mixed(t, r.b, r.c, r.d), r.e, Constant(t), w), r.a, Rotl30(r.b), r.c, r.d)
  }

  function Rounds(r: Regs, block: seq<Octet>, t: nat): Regs
    requires |block| == BLOCK
  {
    if t == 0 then r else Round(Rounds(r, block, t - 1), t - 1, Schedule(block, t - 1))
  }

  function AddRegs(r: Regs, s: Regs): Regs {
    Regs(Add32(r.a, s.a), Add32(r.b, s.b), Add32(r.c, s.c), Add32(r.d, s.d), Add32(r.e, s.e))
  }

  function Compress(r: Regs, block: seq<Octet>): Regs {
    if |block| == BLOCK then AddRegs(r, Rounds(r, block, 80)) else r
  }

  const INITIAL := Regs(0x67452301, 0xEFCDAB89, 0x98BADCFE, 0x10325476, 0xC3D2E1F0)

  // ----- section 4 of FIPS 180-1: the padding -----

  function AsOctet(n: nat): Octet
    requires n < 256
  {
    n as Octet
  }

  function Cut(n: nat): Octet { AsOctet(n % 256) }

  function PutInt(n: nat): (r: seq<Octet>)
    ensures |r| == 4
  {
    [Cut(n / 0x100_0000), Cut(n / 0x1_0000), Cut(n / 0x100), Cut(n)]
  }

  /** The number of bits in eight bytes, high byte first. */
  function LengthBytes(n: nat): (r: seq<Octet>)
    ensures |r| == 8
  {
    PutInt(8 * n / 0x1_0000_0000) + PutInt(8 * n)
  }

  function PutWord(w: bv32): (r: seq<Octet>)
    ensures |r| == 4
  {
    [(w >> 24) as Octet, ((w >> 16) & 0xFF) as Octet, ((w >> 8) & 0xFF) as Octet, (w & 0xFF) as Octet]
  }

  function PutRegs(r: Regs): seq<Octet> {
    PutWord(r.a) + PutWord(r.b) + PutWord(r.c) + PutWord(r.d) + PutWord(r.e)
  }

  /** The digest as the standard defines it. */
  function Digest(m: seq<Octet>): seq<Octet> {
    PutRegs(Fold(Compress, INITIAL, Padded(m, 0x80, 0, LengthBytes(|m|))))
  }

  // ----- unsigned long of 64 bits, by halves -----

  datatype Lane = Lane(high: bv32, low: bv32)

  function Narrow(w: bv32): Lane { Lane(0, w) }

  function Carry(x: bv32, y: bv32): bv32 {
    (((x as bv64) + (y as bv64)) >> 32) as bv32
  }

  function Plus(x: Lane, y: Lane): Lane {
    Lane(x.high + y.high + Carry(x.low, y.low), Add32(x.low, y.low))
  }

  function Carry5(e: bv32, a: bv32, f: bv32, k: bv32, w: bv32): bv32 {
    (((e as bv64) + (a as bv64) + (f as bv64) + (k as bv64) + (w as bv64)) >> 32) as bv32
  }

  function LowSum(e: bv32, a: bv32, f: bv32, k: bv32, w: bv32): bv32 { e + (a + f + k + w) }

  /** e + (a + f + k + w). */
  function WideSum(e: Lane, a: Lane, f: Lane, k: Lane, w: Lane): Lane {
    Lane(LowSum(e.high, a.high, f.high, k.high, w.high) + Carry5(e.low, a.low, f.low, k.low, w.low),
         LowSum(e.low, a.low, f.low, k.low, w.low))
  }

  function Or(x: Lane, y: Lane): Lane { Lane(Or32(x.high, y.high), Or32(x.low, y.low)) }

  /** S(x, n): what is shifted out of the low half stays in the high half, and is also brought back. */
  function S1(x: Lane): Lane {
    Or(Lane(Or32(Left1(x.high), Right31(x.low)), Left1(x.low)), Narrow(Right31(x.low)))
  }

  function S5(x: Lane): Lane {
    Or(Lane(Or32(Left5(x.high), Right27(x.low)), Left5(x.low)), Narrow(Right27(x.low)))
  }

  function S30(x: Lane): Lane {
    Or(Lane(Or32(Left30(x.high), Right2(x.low)), Left30(x.low)), Narrow(Right2(x.low)))
  }

  /** The macro F of round t; it works on each bit by itself. */
  function HalfF(t: nat, x: bv32, y: bv32, z: bv32): bv32 {
    if t < 20 then z ^ (x & (y ^ z)) else if 40 <= t < 60 then (x & y) | (z & (x | y)) else x ^ y ^ z
  }

  function WideF(t: nat, x: Lane, y: Lane, z: Lane): Lane {
    Lane(HalfF(t, x.high, y.high, z.high), HalfF(t, x.low, y.low, z.low))
  }

  lemma ByXorIsChoose(x: bv32, y: bv32, z: bv32)
    ensures z ^ (x & (y ^ z)) == Choose(x, y, z)
  {
  }

  lemma ByOrIsMajority(x: bv32, y: bv32, z: bv32)
    ensures (x & y) | (z & (x | y)) == Majority(x, y, z)
  {
  }

  lemma PlainXorIsParity(x: bv32, y: bv32, z: bv32)
    ensures x ^ y ^ z == Parity(x, y, z)
  {
  }

  lemma HalfFIsMixed(t: nat, x: bv32, y: bv32, z: bv32)
    ensures HalfF(t, x, y, z) == Mixed(t, x, y, z)
  {
    hide Choose, Majority, Parity;
    ByXorIsChoose(x, y, z);
    ByOrIsMajority(x, y, z);
    PlainXorIsParity(x, y, z);
  }

  lemma LowF(t: nat, x: Lane, y: Lane, z: Lane)
    ensures WideF(t, x, y, z).low == Mixed(t, x.low, y.low, z.low)
  {
    hide HalfF, Mixed;
    HalfFIsMixed(t, x.low, y.low, z.low);
  }

  lemma LowRotates(x: Lane)
    ensures S1(x).low == Rotl1(x.low) && S5(x).low == Rotl5(x.low) && S30(x).low == Rotl30(x.low)
  {
    hide Or32, Left1, Left5, Left30, Right31, Right27, Right2;
  }

  // ----- the block function in place -----

  /** The lanes in the roles of round t: the five names move along by one in each round. */
  function Role(t: nat, k: nat): (r: nat)
    requires t <= 80
    ensures r < 5
  {
    (80 - t + k) % 5
  }

  function InRoles(v: seq<Lane>, t: nat): Regs
    requires |v| == 5 && t <= 80
  {
    Regs(v[Role(t, 0)].low, v[Role(t, 1)].low, v[Role(t, 2)].low, v[Role(t, 3)].low, v[Role(t, 4)].low)
  }

  /** P(a, b, c, d, e, x) with the F and K of round t. */
  function Step(v: seq<Lane>, t: nat, x: Lane): (r: seq<Lane>)
    requires |v| == 5 && t < 80
    ensures |r| == 5
  {
    var a, b, c, d, e := Role(t, 0), Role(t, 1), Role(t, 2), Role(t, 3), Role(t, 4);
    v[e := WideSum(v[e], S5(v[a]), WideF(t, v[b], v[c], v[d]), Narrow(Constant(t)), x)][b := S30(v[b])]
  }

  lemma SumOrder(a: bv32, f: bv32, e: bv32, k: bv32, w: bv32)
    ensures LowSum(e, a, f, k, w) == Sum5(a, f, e, k, w)
  {
  }

  lemma RolesMove(t: nat)
    requires t < 80
    ensures Role(t + 1, 0) == Role(t, 4) && Role(t + 1, 1) == Role(t, 0) && Role(t + 1, 2) == Role(t, 1)
    ensures Role(t + 1, 3) == Role(t, 2) && Role(t + 1, 4) == Role(t, 3)
    ensures Role(t, 4) !in {Role(t, 0), Role(t, 1), Role(t, 2), Role(t, 3)}
    ensures Role(t, 1) !in {Role(t, 0), Role(t, 2), Role(t, 3)}
  {
    FiveOn(79 - t);
    RolesDiffer(t, 0, 4); RolesDiffer(t, 1, 4); RolesDiffer(t, 2, 4); RolesDiffer(t, 3, 4);
    RolesDiffer(t, 0, 1); RolesDiffer(t, 1, 2); RolesDiffer(t, 1, 3);
    assert forall k :: 0 <= k < 4 ==> Role(t + 1, k + 1) == Role(t, k);
    hide Role;
  }

  lemma FiveOn(n: nat)
    ensures n % 5 == (n + 5) % 5
  {
  }

  lemma RolesDiffer(t: nat, j: nat, k: nat)
    requires t <= 80 && j < k < 5
    ensures Role(t, j) != Role(t, k)
  {
  }

  /** One P is one round of the standard on the low halves. */
  lemma StepIsRound(v: seq<Lane>, t: nat, x: Lane)
    requires |v| == 5 && t < 80
    ensures InRoles(Step(v, t, x), t + 1) == Round(InRoles(v, t), t, x.low)
  {
    RolesMove(t);
    var a, b, c, d, e := Role(t, 0), Role(t, 1), Role(t, 2), Role(t, 3), Role(t, 4);
    LowF(t, v[b], v[c], v[d]);
    LowRotates(v[a]);
    LowRotates(v[b]);
    SumOrder(Rotl5(v[a].low), Mixed(t, v[b].low, v[c].low, v[d].low), v[e].low, Constant(t), x.low);
    hide Role, WideF, Mixed, S5, S30, Rotl5, Rotl30, Constant, Sum5, LowSum, Carry5;
  }

  // ----- the schedule in a circle of sixteen words -----

  function XorLanes(a: Lane, b: Lane, c: Lane, d: Lane): Lane {
    Lane(Xor4(a.high, b.high, c.high, d.high), Xor4(a.low, b.low, c.low, d.low))
  }

  /** R(t): the word of round t replaces the word of round t - 16. */
  function Renew(w: seq<Lane>, t: nat): (r: seq<Lane>)
    requires |w| == 16 && t >= 16
    ensures |r| == 16
  {
    w[t % 16 := S1(XorLanes(w[(t - 3) % 16], w[(t - 8) % 16], w[(t - 14) % 16], w[t % 16]))]
  }

  /** The circle holds the words of rounds t - 16 to t - 1, or of the first sixteen rounds. */
  predicate Circle(w: seq<Lane>, block: seq<Octet>, t: nat)
    requires |w| == 16 && |block| == BLOCK && t >= 16
  {
    forall j {:trigger Schedule(block, j)} :: t - 16 <= j < t ==> w[j % 16].low == Schedule(block, j)
  }

  lemma RenewKeepsCircle(w: seq<Lane>, block: seq<Octet>, t: nat)
    requires |w| == 16 && |block| == BLOCK && t >= 16 && Circle(w, block, t)
    ensures Circle(Renew(w, t), block, t + 1) && Renew(w, t)[t % 16].low == Schedule(block, t)
  {
    hide Xor4, Rotl1, S1;
    var x := XorLanes(w[(t - 3) % 16], w[(t - 8) % 16], w[(t - 14) % 16], w[t % 16]);
    assert t % 16 == (t - 16) % 16;
    LowRotates(x);
    assert x.low == Xor4(Schedule(block, t - 3), Schedule(block, t - 8),
                         Schedule(block, t - 14), Schedule(block, t - 16));
    forall j {:trigger Schedule(block, j)} | t - 15 <= j < t ensures j % 16 != t % 16 {
      SameSlot(j, t);
    }
  }

  lemma SameSlot(j: nat, t: nat)
    requires t < j + 16 && j < t
    ensures j % 16 != t % 16
  {
  }

  // ----- the context -----

  class Context {
    var total0: nat
    var total1: nat
    const state: array<Lane>
    const buffer: array<Octet>

    ghost predicate Shaped()
      reads this
    {
      state.Length == 5 && buffer.Length == BLOCK
    }

    ghost function Lows(): Regs
      requires Shaped()
      reads this, state
    {
      Regs(state[0].low, state[1].low, state[2].low, state[3].low, state[4].low)
    }

    /** The context after the bytes m. */
    ghost predicate Holds(m: seq<Octet>)
      reads this, state, buffer
    {
      && Shaped()
      && Lows() == Fold(Compress, INITIAL, Whole(m))
      && buffer[..|m| % BLOCK] == Tail(m)
      && total0 == |m| % 0x1_0000_0000 && total1 == |m| / 0x1_0000_0000
    }

    /** sha1_starts. */
    constructor ()
      ensures Holds([]) && fresh(state) && fresh(buffer)
    {
      total0, total1 := 0, 0;
      state := new Lane[5](_ => Narrow(0));
      buffer := new Octet[BLOCK];
      new;
      state[0] := Narrow(INITIAL.a);
      state[1] := Narrow(INITIAL.b);
      state[2] := Narrow(INITIAL.c);
      state[3] := Narrow(INITIAL.d);
      state[4] := Narrow(INITIAL.e);
    }

    /** sha1_process. */
    method Process(data: seq<Octet>)
      requires Shaped() && |data| == BLOCK
      modifies state
      ensures Lows() == Compress(old(Lows()), data)
    {
      hide Word, Constant, Mixed, S1, Compress, Rounds, Schedule, Narrow;
      var v := RunRounds(data);
      AddBack(v, data, old(Lows()));
    }

    method RunRounds(data: seq<Octet>) returns (v: seq<Lane>)
      requires Shaped() && |data| == BLOCK
      ensures |v| == 5 && InRoles(v, 80) == Rounds(Lows(), data, 80)
    {
      hide Word, Step, Round, Renew;
      var w := seq(16, i requires 0 <= i < 16 => Narrow(Word(data, 4 * i)));
      assert Circle(w, data, 16);
      v := state[..];
      assert InRoles(v, 0) == Lows();
      for t := 0 to 80
        invariant |v| == 5 && |w| == 16 && Circle(w, data, if t < 16 then 16 else t)
        invariant InRoles(v, t) == Rounds(Lows(), data, t)
      {
        hide InRoles;
        if t >= 16 {
          RenewKeepsCircle(w, data, t);
          w := Renew(w, t);
        }
        assert w[t % 16].low == Schedule(data, t);
        StepIsRound(v, t, w[t % 16]);
        v := Step(v, t, w[t % 16]);
      }
    }

    method AddBack(v: seq<Lane>, ghost data: seq<Octet>, ghost before: Regs)
      requires Shaped() && |v| == 5 && |data| == BLOCK && before == Lows() && InRoles(v, 80) == Rounds(before, data, 80)
      modifies state
      ensures Lows() == Compress(before, data)
    {
      hide Rounds, Add32, Carry;
      state[0] := Plus(state[0], v[0]);
      state[1] := Plus(state[1], v[1]);
      state[2] := Plus(state[2], v[2]);
      state[3] := Plus(state[3], v[3]);
      state[4] := Plus(state[4], v[4]);
    }

    /** memcpy(buffer + at, data, length). */
    method Copy(at: nat, data: seq<Octet>)
      requires Shaped() && at + |data| <= BLOCK
      modifies buffer
      ensures buffer[..] == old(buffer[..at]) + data + old(buffer[at + |data|..])
    {
      for i := 0 to |data|
        invariant forall j :: 0 <= j < at ==> buffer[j] == old(buffer[j])
        invariant forall j :: 0 <= j < i ==> buffer[at + j] == data[j]
        invariant forall j :: at + i <= j < BLOCK ==> buffer[j] == old(buffer[j])
      {
        buffer[at + i] := data[i];
      }
      assert buffer[..at] == old(buffer[..at]);
      assert buffer[at..at + |data|] == data;
      assert buffer[at + |data|..] == old(buffer[at + |data|..]);
      assert buffer[..] == buffer[..at] + buffer[at..at + |data|] + buffer[at + |data|..];
    }

    /** The state of the lanes and the buffer alone. */
    ghost predicate Absorbed(m: seq<Octet>)
      reads this, state, buffer
    {
      Shaped() && Lows() == Fold(Compress, INITIAL, Whole(m)) && buffer[..|m| % BLOCK] == Tail(m)
    }

    /** memcpy into a buffer that stays short of a block. */
    method AbsorbShort(left: nat, data: seq<Octet>, ghost m: seq<Octet>)
      requires Absorbed(m) && left == |m| % BLOCK && left + |data| < BLOCK
      modifies buffer
      ensures Absorbed(m + data)
    {
      hide Fold, Compress, Whole, Tail;
      Copy(left, data);
      Short(m, data);
      assert buffer[..][..left + |data|] == Tail(m) + data;
      assert |m + data| % BLOCK == left + |data|;
    }

    /** memcpy up to the end of the buffer, which is then processed. */
    method AbsorbFill(left: nat, data: seq<Octet>, ghost m: seq<Octet>)
      requires Absorbed(m) && left == |m| % BLOCK && left + |data| == BLOCK
      modifies buffer, state
      ensures Absorbed(m + data) && |m + data| % BLOCK == 0
    {
      hide Fold, Compress, Whole, Tail;
      Copy(left, data);
      assert buffer[..] == Tail(m) + data;
      Process(buffer[..]);
      Filled(m, data);
      FoldBlock(Compress, INITIAL, Whole(m), Tail(m) + data);
    }

    method AbsorbBlock(data: seq<Octet>, ghost m: seq<Octet>)
      requires Absorbed(m) && |m| % BLOCK == 0 && |data| == BLOCK
      modifies state
      ensures Absorbed(m + data) && |m + data| % BLOCK == 0
    {
      hide Fold, Compress, Whole, Tail;
      Process(data);
      Filled(m, data);
      assert Tail(m) + data == data;
      FoldBlock(Compress, INITIAL, Whole(m), data);
    }

    method CountBytes(length: nat, ghost n: nat)
      requires total0 == n % 0x1_0000_0000 && total1 == n / 0x1_0000_0000 && length < 0x1_0000_0000
      modifies this`total0, this`total1
      ensures total0 == (n + length) % 0x1_0000_0000 && total1 == (n + length) / 0x1_0000_0000
    {
      AddLengths(n, length);
      total0 := total0 + length;
      total0 := total0 % 0x1_0000_0000;
      if total0 < length { total1 := total1 + 1; }
    }

    /** sha1_update: the pieces that came before do not matter, only what they add up to. */
    method Update(input: seq<Octet>, ghost m: seq<Octet>)
      requires Holds(m) && |input| < 0x1_0000_0000
      modifies this`total0, this`total1, state, buffer
      ensures Holds(m + input)
    {
      hide Fold, Compress, Whole, Tail;
      if |input| == 0 {
        assert m + input == m;
        return;
      }
      var left := total0 % BLOCK;
      var fill := BLOCK - left;
      assert left == |m| % BLOCK;
      CountBytes(|input|, |m|);
      AbsorbAll(input, left, fill, m);
    }

    /** The loop over whole blocks of the input. */
    method AbsorbBlocks(input: seq<Octet>, from: nat, ghost m: seq<Octet>) returns (at: nat)
      requires from <= |input| && Absorbed(m + input[..from]) && |m + input[..from]| % BLOCK == 0
      modifies state
      ensures from <= at <= |input| && |input| - at < BLOCK
      ensures Absorbed(m + input[..at]) && |m + input[..at]| % BLOCK == 0
    {
      hide Fold, Compress, Whole, Tail;
      at := from;
      while |input| - at >= BLOCK
        invariant from <= at <= |input| && Absorbed(m + input[..at]) && |m + input[..at]| % BLOCK == 0
      {
        AbsorbBlock(input[at..at + BLOCK], m + input[..at]);
        assert m + input[..at] + input[at..at + BLOCK] == m + input[..at + BLOCK];
        at := at + BLOCK;
      }
    }

    method AbsorbAll(input: seq<Octet>, leftInBuffer: nat, fill: nat, ghost m: seq<Octet>)
      requires Absorbed(m) && leftInBuffer == |m| % BLOCK && fill == BLOCK - leftInBuffer
      modifies state, buffer
      ensures Absorbed(m + input)
    {
      hide Fold, Compress, Whole, Tail;
      var left, at := leftInBuffer, 0;
      assert m + input[..0] == m;
      if left > 0 && |input| >= fill {
        AbsorbFill(left, input[..fill], m);
        at := fill;
        left := 0;
      }
      if left == 0 {
        at := AbsorbBlocks(input, at, m);
      }
      assert m + input[..at] + input[at..] == m + input;
      if at < |input| {
        AbsorbShort(left, input[at..], m + input[..at]);
      } else {
        assert input[..at] == input;
      }
    }

    /** sha1_finish. */
    method Finish(ghost m: seq<Octet>) returns (digest: seq<Octet>)
      requires Holds(m)
      modifies this`total0, this`total1, state, buffer
      ensures digest == Digest(m)
    {
      hide Fold, Compress, Whole, Tail, Padding, PutWord, PutInt, Padded;
      var high := total0 / 0x2000_0000 + total1 * 8;
      var low := total0 * 8;
      BitCount(|m|);
      var msglen := PutInt(high) + PutInt(low);
      assert msglen == LengthBytes(|m|);
      PadAndClose(m, msglen);
      digest := PutWord(state[0].low) + PutWord(state[1].low) + PutWord(state[2].low)
              + PutWord(state[3].low) + PutWord(state[4].low);
    }

    method PadAndClose(ghost m: seq<Octet>, msglen: seq<Octet>)
      requires Holds(m) && |msglen| == 8
      modifies this`total0, this`total1, state, buffer
      ensures Shaped() && Lows() == Fold(Compress, INITIAL, Padded(m, 0x80, 0, msglen))
    {
      hide Fold, Compress, Whole, Tail, Padding;
      var last := total0 % BLOCK;
      var padn := if last < 56 then 56 - last else 120 - last;
      assert padn == PadLength(|m|);
      Update(Padding(padn, 0x80, 0), m);
      Update(msglen, m + Padding(padn, 0x80, 0));
      WholeAndTail(Padded(m, 0x80, 0, msglen));
    }
  }

  lemma AddLengths(n: nat, k: nat)
    requires k < 0x1_0000_0000
    ensures var t := (n % 0x1_0000_0000 + k) % 0x1_0000_0000;
      t == (n + k) % 0x1_0000_0000 && (n + k) / 0x1_0000_0000 == n / 0x1_0000_0000 + if t < k then 1 else 0
  {
  }

  /** The two halves of the length in bits; only their low 32 bits are stored. */
  lemma BitCount(n: nat)
    ensures PutInt(n % 0x1_0000_0000 / 0x2000_0000 + n / 0x1_0000_0000 * 8) + PutInt(n % 0x1_0000_0000 * 8)
         == LengthBytes(n)
  {
    var h, l := n / 0x1_0000_0000, n % 0x1_0000_0000;
    assert 8 * n == 8 * h * 0x1_0000_0000 + 8 * l;
    assert 8 * n / 0x1_0000_0000 == 8 * h + 8 * l / 0x1_0000_0000;
    assert 8 * l / 0x1_0000_0000 == l / 0x2000_0000;
    SameLowBytes(8 * n, 8 * l, 8 * h);
  }

  lemma SameLowBytes(n: nat, l: nat, q: nat)
    requires n == q * 0x1_0000_0000 + l
    ensures PutInt(n) == PutInt(l)
  {
    SameByte3(n, l, q);
    SameByte2(n, l, q);
    SameByte1(n, l, q);
    SameByte0(n, l, q * 0x100_0000);
    hide Cut;
  }

  lemma SameByte0(n: nat, l: nat, q: nat)
    requires n == q * 256 + l
    ensures Cut(n) == Cut(l)
  {
    hide AsOctet;
    ModSame(n, l, q);
  }

  lemma ModSame(n: nat, l: nat, q: nat)
    requires n == q * 256 + l
    ensures n % 256 == l % 256
  {
  }

  lemma SameByte1(n: nat, l: nat, q: nat)
    requires n == q * 0x1_0000_0000 + l
    ensures Cut(n / 0x100) == Cut(l / 0x100)
  {
    assert n / 0x100 == q * 0x1_0000 * 256 + l / 0x100;
    SameByte0(n / 0x100, l / 0x100, q * 0x1_0000);
  }

  lemma SameByte2(n: nat, l: nat, q: nat)
    requires n == q * 0x1_0000_0000 + l
    ensures Cut(n / 0x1_0000) == Cut(l / 0x1_0000)
  {
    assert n / 0x1_0000 == q * 0x100 * 256 + l / 0x1_0000;
    SameByte0(n / 0x1_0000, l / 0x1_0000, q * 0x100);
  }

  lemma SameByte3(n: nat, l: nat, q: nat)
    requires n == q * 0x1_0000_0000 + l
    ensures Cut(n / 0x100_0000) == Cut(l / 0x100_0000)
  {
    assert n / 0x100_0000 == q * 256 + l / 0x100_0000;
    SameByte0(n / 0x100_0000, l / 0x100_0000, q);
  }

  /** sha1_file: the file comes in pieces of 1024 bytes. */
  method File(contents: seq<Octet>) returns (digest: seq<Octet>)
    ensures digest == Digest(contents)
  {
    hide *;
    var ctx := new Context();
    var at := 0;
    assert contents[..0] == [];
    while at < |contents|
      invariant 0 <= at <= |contents| && ctx.Holds(contents[..at])
      invariant fresh(ctx) && fresh(ctx.state) && fresh(ctx.buffer)
    {
      var n := if |contents| - at < 1024 then |contents| - at else 1024;
      ctx.Update(contents[at..at + n], contents[..at]);
      assert contents[..at] + contents[at..at + n] == contents[..at + n];
      at := at + n;
    }
    assert contents[..at] == contents;
    digest := ctx.Finish(contents);
  }
}
