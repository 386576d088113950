/** The PC1 stream cipher: a context of registers and a key that every plaintext byte is mixed into. */
module Pc1 {

  type Byte = bv8

  /** unsigned short: sums and products wrap around at 16 bits. */
  newtype Word = x: int | 0 <= x < 0x1_0000

  function Add(a: Word, b: Word): Word {
    ((a as int + b as int) % 0x1_0000) as Word
  }

  function Mul(a: Word, b: Word): Word {
    ((a as int * b as int) % 0x1_0000) as Word
  }

  function Xor(a: Word, b: Word): Word {
    ((a as bv16) ^ (b as bv16)) as Word
  }

  lemma MulZero(b: Word)
    ensures Mul(0, b) == 0
  {
  }

  /** The registers that carry over from one step to the next, and the key. */
  datatype State = State(si: Word, x1a2: Word, x1a0: seq<Word>, res: Word, inter: Word, i: nat, cle: seq<Byte>) {
    predicate Valid() {
      |x1a0| == 8 && |cle| == 17
    }
  }

  /** A context between two bytes. */
  type Ready = s: State | s.Valid() && s.i == 0
    witness State(0, 0, [0, 0, 0, 0, 0, 0, 0, 0], 0, 0, 0, [0, 0, 0, 0, 0, 0, 0, 0, 0, 0, 0, 0, 0, 0, 0, 0, 0])

  // ----- pc1_code and pc1_assemble -----

  /** One pass through the register shuffle. */
  function Code(s: State): (r: State)
    requires s.Valid() && s.i < 8
    ensures r.Valid() && r.i == s.i + 1 && r.cle == s.cle && r.inter == s.inter
  {
    var x := s.x1a0[s.i];
    var ax := Add(Mul(x, 0x4e35), 1);
    var cx := Add(Mul(0x015a, x), Mul(Add(s.x1a2, s.i as Word), 0x4e35));
    var dx := Add(cx, s.si);
    State(Mul(0x015a, x), dx, s.x1a0[s.i := ax], Xor(ax, dx), s.inter, s.i + 1, s.cle)
  }

  function KeyWord(cle: seq<Byte>, k: nat): Word
    requires |cle| == 17 && k < 8
  {
    Add(Mul(cle[2 * k] as Word, 256), cle[2 * k + 1] as Word)
  }

  /** Round k loads x1a0[k] from the key and the word before it, and folds the output into inter. */
  function Round(s: State, k: nat): (r: State)
    requires s.Valid() && s.i == k < 8
    ensures r.Valid() && r.i == k + 1 && r.cle == s.cle
  {
    var w := if k == 0 then KeyWord(s.cle, 0) else Xor(s.x1a0[k - 1], KeyWord(s.cle, k));
    var c := Code(s.(x1a0 := s.x1a0[k := w]));
    c.(inter := if k == 0 then c.res else Xor(s.inter, c.res))
  }

  function Assemble(s: State): (r: State)
    requires s.Valid() && s.i == 0
    ensures r.Valid() && r.i == 0 && r.cle == s.cle
  {
    var r4 := Round(Round(Round(Round(s, 0), 1), 2), 3);
    Round(Round(Round(Round(r4, 4), 5), 6), 7).(i := 0)
  }

  // ----- one byte -----

  /** cfc ^ cfd: the byte the context produces. */
  function High(w: Word): Byte { (w / 256) as Byte }

  function Low(w: Word): Byte { (w % 256) as Byte }

  function KeyByte(inter: Word): Byte {
    High(inter) ^ Low(inter)
  }

  /** The first sixteen key bytes take in the plaintext byte. */
  function Mix(cle: seq<Byte>, plain: Byte): (r: seq<Byte>)
    requires |cle| == 17
    ensures |r| == 17
  {
    seq(17, k requires 0 <= k < 17 => if k <= 15 then cle[k] ^ plain else cle[k])
  }

  datatype Output = Output(state: Ready, byte: Byte)

  function Encrypt(s: State, c: Byte): (o: Output)
    requires s.Valid() && s.i == 0
  {
    var a := Assemble(s);
    Output(a.(cle := Mix(a.cle, c)), c ^ KeyByte(a.inter))
  }

  function Decrypt(s: State, c: Byte): (o: Output)
    requires s.Valid() && s.i == 0
  {
    var a := Assemble(s);
    var plain := c ^ KeyByte(a.inter);
    Output(a.(cle := Mix(a.cle, plain)), plain)
  }

  lemma XorTwice(a: Byte, b: Byte)
    ensures (a ^ b) ^ b == a
  {
  }

  /** From the same context decryption gives the byte back and ends in the same context. */
  lemma DecryptUndoesEncrypt(s: State, c: Byte)
    requires s.Valid() && s.i == 0
    ensures Decrypt(s, Encrypt(s, c).byte) == Output(Encrypt(s, c).state, c)
    ensures Encrypt(s, Decrypt(s, c).byte) == Output(Decrypt(s, c).state, c)
  {
    XorTwice(c, KeyByte(Assemble(s).inter));
  }

  lemma SumsWrap(a: int, b: int)
    ensures (a % 0x1_0000 + b) % 0x1_0000 == (a + b) % 0x1_0000
    ensures (a + b % 0x1_0000) % 0x1_0000 == (a + b) % 0x1_0000
  {
  }

  lemma ProductWraps(a: int, b: int)
    ensures (a % 0x1_0000 * b) % 0x1_0000 == (a * b) % 0x1_0000
  {
    var q := a / 0x1_0000;
    assert a == q * 0x1_0000 + a % 0x1_0000;
    assert a * b == a % 0x1_0000 * b + (q * b) * 0x1_0000;
    WholeTurns(a % 0x1_0000 * b, q * b);
  }

  lemma WholeTurns(a: int, n: int)
    ensures (a + n * 0x1_0000) % 0x1_0000 == a % 0x1_0000
  {
  }

  /** One pass in plain numbers: the word is stepped by one generator, and by a second one together with the two
      registers that carry over. */
  lemma CodeMeans(s: State)
    requires s.Valid() && s.i < 8
    ensures var x, r := s.x1a0[s.i] as int, Code(s);
      && r.x1a0[s.i] as int == (0x4e35 * x + 1) % 0x1_0000
      && r.si as int == 0x015a * x % 0x1_0000
      && r.x1a2 as int == (0x015a * x + 0x4e35 * (s.x1a2 as int + s.i) + s.si as int) % 0x1_0000
      && r.res == Xor(r.x1a0[s.i], r.x1a2)
      && forall j :: 0 <= j < 8 && j != s.i ==> r.x1a0[j] == s.x1a0[j]
  {
    hide Xor;
    var x: int := s.x1a0[s.i] as int;
    var d := s.x1a2 as int + s.i;
    SumsWrap(0x4e35 * x, 1);
    ProductWraps(d, 0x4e35);
    SumsWrap(0x015a * x, 0x4e35 * d);
    SumsWrap(0x015a * x % 0x1_0000, 0x4e35 * d);
    SumsWrap(0x015a * x + 0x4e35 * d, s.si as int);
  }

  /** A round: its word is the next two key bytes, the first in front, combined with the word before; its result is
      combined with the results before. */
  lemma RoundMeans(s: State, k: nat)
    requires s.Valid() && s.i == k < 8
    ensures var key := 256 * (s.cle[2 * k] as int) + s.cle[2 * k + 1] as int;
      && key < 0x1_0000
      && var word := if k == 0 then key as Word else Xor(s.x1a0[k - 1], key as Word);
      var c, r := Code(s.(x1a0 := s.x1a0[k := word])), Round(s, k);
      r == c.(inter := r.inter) && r.inter == (if k == 0 then r.res else Xor(s.inter, r.res))
  {
    hide Xor, Code;
    KeyWordIs(s.cle, k);
  }

  lemma KeyWordIs(cle: seq<Byte>, k: nat)
    requires |cle| == 17 && k < 8
    ensures KeyWord(cle, k) as int == 256 * (cle[2 * k] as int) + cle[2 * k + 1] as int
  {
    var a: Word, b: Word := cle[2 * k] as Word, cle[2 * k + 1] as Word;
    SmallPair(a, b);
    hide Add, Mul;
  }

  lemma SmallPair(a: Word, b: Word)
    requires a < 256 && b < 256
    ensures Add(Mul(a, 256), b) as int == 256 * (a as int) + b as int
  {
  }

  type Cipher = (Ready, Byte) -> Output

  // ----- a stream of bytes -----

  datatype Stream = Stream(state: Ready, bytes: seq<Byte>)

  /** pc1_encrypt_buf and pc1_decrypt_buf differ in the step only. */
  function Run(step: Cipher, s: Ready, bytes: seq<Byte>): (r: Stream)
    ensures |r.bytes| == |bytes|
  {
    if bytes == [] then Stream(s, [])
    else
      var n := |bytes| - 1;
      var r := Run(step, s, bytes[..n]);
      var o := step(r.state, bytes[n]);
      Stream(o.state, r.bytes + [o.byte])
  }

  lemma Append(step: Cipher, s: Ready, bytes: seq<Byte>, n: nat)
    requires n < |bytes|
    ensures var r := Run(step, s, bytes[..n]); var o := step(r.state, bytes[n]);
      Run(step, s, bytes[..n + 1]) == Stream(o.state, r.bytes + [o.byte])
  {
    assert bytes[..n + 1][..n] == bytes[..n];
  }

  /** From equal contexts, dec gives back what enc took and ends where enc ended. */
  ghost predicate Undoes(dec: Cipher, enc: Cipher) {
    forall s: Ready, c: Byte :: dec(s, enc(s, c).byte) == Output(enc(s, c).state, c)
  }

  /** Whole buffers come back, and the two contexts agree at the end. */
  lemma {:induction false} RunUndoesRun(dec: Cipher, enc: Cipher, s: Ready, bytes: seq<Byte>)
    requires Undoes(dec, enc)
    ensures Run(dec, s, Run(enc, s, bytes).bytes) == Stream(Run(enc, s, bytes).state, bytes)
  {
    if bytes != [] {
      var n := |bytes| - 1;
      RunUndoesRun(dec, enc, s, bytes[..n]);
      var r := Run(enc, s, bytes[..n]);
      var e := Run(enc, s, bytes).bytes;
      assert e[..|e| - 1] == r.bytes && e[|e| - 1] == enc(r.state, bytes[n]).byte;
      assert dec(r.state, e[|e| - 1]) == Output(enc(r.state, bytes[n]).state, bytes[n]);
      assert bytes == bytes[..n] + [bytes[n]];
    }
  }

  /** Cutting the stream into chunks does not matter. */
  lemma {:induction false} RunInChunks(step: Cipher, s: Ready, a: seq<Byte>, b: seq<Byte>)
    ensures var r := Run(step, s, a); var t := Run(step, r.state, b);
      Run(step, s, a + b) == Stream(t.state, r.bytes + t.bytes)
  {
    if b == [] {
      assert a + b == a;
    } else {
      var n := |b| - 1;
      RunInChunks(step, s, a, b[..n]);
      assert (a + b)[..|a + b| - 1] == a + b[..n];
    }
  }

  const ENCRYPT: Cipher := (s: Ready, c: Byte) => Encrypt(s, c)
  const DECRYPT: Cipher := (s: Ready, c: Byte) => Decrypt(s, c)

  lemma DecryptionUndoesEncryption()
    ensures Undoes(DECRYPT, ENCRYPT) && Undoes(ENCRYPT, DECRYPT)
  {
    forall s: Ready, c: Byte ensures DECRYPT(s, ENCRYPT(s, c).byte) == Output(ENCRYPT(s, c).state, c) {
      DecryptUndoesEncrypt(s, c);
    }
    forall s: Ready, c: Byte ensures ENCRYPT(s, DECRYPT(s, c).byte) == Output(DECRYPT(s, c).state, c) {
      DecryptUndoesEncrypt(s, c);
    }
  }

  /** Encrypted in two chunks and decrypted in two others, every message comes back, from every
      starting context. */
  lemma ChunksNeedNotMatch(s: Ready, a: seq<Byte>, b: seq<Byte>, c: seq<Byte>, d: seq<Byte>)
    requires var e := Run(ENCRYPT, s, a); e.bytes + Run(ENCRYPT, e.state, b).bytes == c + d
    ensures var r := Run(DECRYPT, s, c); var t := Run(DECRYPT, r.state, d);
      r.bytes + t.bytes == a + b && t.state == Run(ENCRYPT, s, a + b).state
  {
    RunInChunks(ENCRYPT, s, a, b);
    RunInChunks(DECRYPT, s, c, d);
    DecryptionUndoesEncryption();
    RunUndoesRun(DECRYPT, ENCRYPT, s, a + b);
  }

  // ----- the context and the buffers, in place -----

  class Context {
    var ax: Word
    var bx: Word
    var cx: Word
    var dx: Word
    var si: Word
    var tmp: Word
    var x1a2: Word
    const x1a0: array<Word>
    var res: Word
    var i: nat
    var inter: Word
    var cfc: Byte
    var cfd: Byte
    var compte: nat
    const cle: array<Byte>

    ghost predicate Valid()
      reads this
    {
      x1a0.Length == 8 && cle.Length == 17
    }

    ghost function View(): State
      reads this, x1a0, cle
    {
      State(si, x1a2, x1a0[..], res, inter, i, cle[..])
    }

    constructor (key: seq<Byte>)
      requires |key| == 17
      ensures Valid() && fresh(x1a0) && fresh(cle)
      ensures View() == State(0, 0, seq(8, _ => 0), 0, 0, 0, key)
    {
      x1a0, cle := new Word[8](_ => 0), new Byte[17](k requires 0 <= k < 17 => key[k]);
      ax, bx, cx, dx, si, tmp, x1a2, res, i, inter := 0, 0, 0, 0, 0, 0, 0, 0, 0, 0;
      cfc, cfd, compte := 0, 0, 0;
      new;
      assert x1a0[..] == seq(8, _ => 0);
      assert cle[..] == key;
    }

    /** The register exchanges of pc1_code, up to the point where results are stored. */
    method Shuffle()
      requires Valid() && i < 8
      modifies this`ax, this`bx, this`cx, this`dx, this`si, this`tmp
      ensures ax == Add(Mul(x1a0[i], 0x4e35), 1)
      ensures dx == Add(Add(Mul(0x015a, x1a0[i]), Mul(Add(x1a2, i as Word), 0x4e35)), old(si))
      ensures si == Mul(0x015a, x1a0[i])
    {
      dx := Add(x1a2, i as Word);
      ax := x1a0[i];
      cx := 0x015a;
      bx := 0x4e35;
      tmp := ax; ax := si; si := tmp;
      tmp := ax; ax := dx; dx := tmp;
      MulZero(bx);
      if ax != 0 {
        ax := Mul(ax, bx);
      }
      tmp := ax; ax := cx; cx := tmp;
      if ax != 0 {
        ax := Mul(ax, si);
        cx := Add(ax, cx);
      }
      tmp := ax; ax := si; si := tmp;
      ax := Mul(ax, bx);
      dx := Add(cx, dx);
      ax := Add(ax, 1);
    }

    method CodeStep()
      requires Valid() && i < 8
      modifies this, x1a0
      ensures Valid() && View() == Code(old(View()))
    {
      Shuffle();
      x1a2 := dx;
      x1a0[i] := ax;
      res := Xor(ax, dx);
      i := i + 1;
    }

    /** The three lines that pc1_assemble repeats for k = 1 to 7. */
    method LaterRound(k: nat)
      requires Valid() && 1 <= k < 8 && i == k
      modifies this, x1a0
      ensures Valid() && View() == Round(old(View()), k)
    {
      x1a0[k] := Xor(x1a0[k - 1], KeyWord(cle[..], k));
      assert View() == old(View()).(x1a0 := old(x1a0[..])[k := x1a0[k]]);
      CodeStep();
      inter := Xor(inter, res);
    }

    method FirstRound()
      requires Valid() && i == 0
      modifies this, x1a0
      ensures Valid() && View() == Round(old(View()), 0)
    {
      x1a0[0] := KeyWord(cle[..], 0);
      assert View() == old(View()).(x1a0 := old(x1a0[..])[0 := x1a0[0]]);
      CodeStep();
      inter := res;
    }

    method AssembleKey()
      requires Valid() && i == 0
      modifies this, x1a0
      ensures Valid() && View() == Assemble(old(View()))
    {
      hide Round;
      FirstRound();
      LaterRound(1);
      LaterRound(2);
      LaterRound(3);
      LaterRound(4);
      LaterRound(5);
      LaterRound(6);
      LaterRound(7);
      i := 0;
    }

    /** The loop both directions end with: the plaintext byte goes into the key. */
    method MixIn(plain: Byte)
      requires Valid()
      modifies this`compte, cle
      ensures cle[..] == Mix(old(cle[..]), plain)
    {
      compte := 0;
      while compte <= 15
        invariant compte <= 16
        invariant forall k :: 0 <= k < compte ==> cle[k] == old(cle[k]) ^ plain
        invariant forall k :: compte <= k < 17 ==> cle[k] == old(cle[k])
      {
        cle[compte] := cle[compte] ^ plain;
        compte := compte + 1;
      }
    }

    method EncryptByte(c: Byte) returns (r: Byte)
      requires Valid() && i == 0
      modifies this, x1a0, cle
      ensures Valid() && i == 0 && Output(View(), r) == Encrypt(old(View()), c)
    {
      hide Assemble;
      AssembleKey();
      cfc, cfd := High(inter), Low(inter);
      MixIn(c);
      r := c ^ (cfc ^ cfd);
    }

    method DecryptByte(c: Byte) returns (r: Byte)
      requires Valid() && i == 0
      modifies this, x1a0, cle
      ensures Valid() && i == 0 && Output(View(), r) == Decrypt(old(View()), c)
    {
      hide Assemble;
      AssembleKey();
      cfc, cfd := High(inter), Low(inter);
      r := c ^ (cfc ^ cfd);
      MixIn(r);
    }

    method EncryptBuf(buf: array<Byte>)
      requires Valid() && i == 0 && buf != cle && buf as object != x1a0 as object
      modifies this, x1a0, cle, buf
      ensures Valid() && i == 0
      ensures Stream(View(), buf[..]) == Run(ENCRYPT, old(View()), old(buf[..]))
    {
      hide Assemble, Encrypt;
      ghost var s, was := View(), buf[..];
      var n := 0;
      while n < buf.Length
        invariant Valid() && i == 0 && n <= buf.Length
        invariant Stream(View(), buf[..n]) == Run(ENCRYPT, s, was[..n])
        invariant buf[n..] == was[n..]
      {
        assert buf[n] == buf[n..][0] == was[n..][0];
        label L:
        var b := EncryptByte(buf[n]);
        buf[n] := b;
        Append(ENCRYPT, s, was, n);
        assert buf[..n] == old@L(buf[..n]);
        assert buf[..n + 1] == buf[..n] + [b];
        assert buf[n + 1..] == old@L(buf[n + 1..]) == was[n + 1..];
        n := n + 1;
      }
      assert was[..n] == was && buf[..n] == buf[..];
    }

    method DecryptBuf(buf: array<Byte>)
      requires Valid() && i == 0 && buf != cle && buf as object != x1a0 as object
      modifies this, x1a0, cle, buf
      ensures Valid() && i == 0
      ensures Stream(View(), buf[..]) == Run(DECRYPT, old(View()), old(buf[..]))
    {
      hide Assemble, Decrypt;
      ghost var s, was := View(), buf[..];
      var n := 0;
      while n < buf.Length
        invariant Valid() && i == 0 && n <= buf.Length
        invariant Stream(View(), buf[..n]) == Run(DECRYPT, s, was[..n])
        invariant buf[n..] == was[n..]
      {
        assert buf[n] == buf[n..][0] == was[n..][0];
        label L:
        var b := DecryptByte(buf[n]);
        buf[n] := b;
        Append(DECRYPT, s, was, n);
        assert buf[..n] == old@L(buf[..n]);
        assert buf[..n + 1] == buf[..n] + [b];
        assert buf[n + 1..] == old@L(buf[n + 1..]) == was[n + 1..];
        n := n + 1;
      }
      assert was[..n] == was && buf[..n] == buf[..];
    }
  }
}
