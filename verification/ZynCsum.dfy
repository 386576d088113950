/** The 16-bit one's complement checksum of ZyNOS images, fed in chunks of any length. */
module ZynCsum {

  import opened Bytes
  import opened Options

  /** The words of s, high byte first, the last one filled up with a zero byte, all added up. */
  function Total(s: seq<Byte>): nat
    decreases |s|
  {
    if |s| == 0 then 0
    else if |s| == 1 then Pair(s[0], 0)
    else Total(s[..|s| - TailLength(s)]) + Word(s[|s| - TailLength(s)..])
  }

  /** How many bytes the last word of s really has. */
  function TailLength(s: seq<Byte>): (n: nat)
    requires |s| > 0
    ensures 1 <= n <= 2 && n <= |s| && (|s| - n) % 2 == 0
  {
    if |s| % 2 == 0 then 2 else 1
  }

  function Word(s: seq<Byte>): (r: nat)
    requires 1 <= |s| <= 2
    ensures r <= 0xFFFF
  {
    Pair(s[0], if |s| == 2 then s[1] else 0)
  }

  /** One's complement: zero stays zero, every other multiple of 65535 is 65535. */
  function Ones(n: nat): (r: nat)
    ensures r <= 0xFFFF && r % 0xFFFF == n % 0xFFFF && (r == 0 <==> n == 0)
  {
    if n == 0 then 0 else (n - 1) % 0xFFFF + 1
  }

  /** What every way of feeding s comes to; it fits 16 bits. */
  function Checksum(s: seq<Byte>): (r: nat)
    ensures r <= 0xFFFF
  {
    Ones(Total(s))
  }

  /** sum += w with the end-around carry. */
  function AddWord(sum: nat, w: nat): (r: nat)
    requires sum <= 0xFFFF && w <= 0xFFFF
    ensures r <= 0xFFFF
  {
    if sum + w > 0xFFFF then (sum + w + 1) % 0x1_0000 else sum + w
  }

  lemma AddWordIsOnes(n: nat, w: nat)
    requires w <= 0xFFFF
    ensures AddWord(Ones(n), w) == Ones(n + w)
  {
    var o := Ones(n);
    if n > 0 {
      assert n - 1 == (n - 1) / 0xFFFF * 0xFFFF + (n - 1) % 0xFFFF;
      var q := (n - 1) / 0xFFFF;
      assert n + w - 1 == q * 0xFFFF + (o + w - 1);
      ModAdd(q, o + w - 1);
    }
  }

  lemma ModAdd(q: nat, x: nat)
    requires x < 2 * 0xFFFF
    ensures (q * 0xFFFF + x) % 0xFFFF == if x < 0xFFFF then x else x - 0xFFFF
  {
  }

  lemma TotalAppend(s: seq<Byte>, w: seq<Byte>)
    requires |s| % 2 == 0 && 1 <= |w| <= 2
    ensures Total(s + w) == Total(s) + Word(w)
  {
    var t := s + w;
    if |t| > 1 {
      assert t[..|t| - TailLength(t)] == s && t[|t| - TailLength(t)..] == w;
    } else {
      assert t == w;
    }
  }

  /** A word on an even boundary goes into the checksum by one end-around addition. */
  lemma ChecksumAppend(s: seq<Byte>, w: seq<Byte>)
    requires |s| % 2 == 0 && 1 <= |w| <= 2
    ensures Checksum(s + w) == AddWord(Checksum(s), Word(w))
  {
    hide Total, Ones, AddWord, Word;
    TotalAppend(s, w);
    AddWordIsOnes(Total(s), Word(w));
  }

  /** The state after s: the checksum of its whole words, and the byte that waits for its partner. */
  ghost predicate After(css: Csum, s: seq<Byte>)
    reads css
  {
    && (css.odd <==> |s| % 2 == 1)
    && css.sum == Checksum(s[..|s| - |s| % 2])
    && (css.odd ==> css.tmp == s[|s| - 1])
  }

  class Csum {
    var odd: bool
    var sum: nat
    var tmp: Byte

    /** csum_init. */
    constructor ()
      ensures After(this, [])
    {
      odd, sum, tmp := false, 0, 0;
    }

    method Add(hi: Byte, lo: Byte, ghost s: seq<Byte>)
      requires |s| % 2 == 0 && sum == Checksum(s)
      modifies this`sum
      ensures sum == Checksum(s + [hi, lo])
    {
      ChecksumAppend(s, [hi, lo]);
      sum := sum + Pair(hi, lo);
      if sum > 0xFFFF {
        sum := sum + 1;
        sum := sum % 0x1_0000;
      }
    }

    /** The loop over pairs, from an even place on. */
    method AddPairs(p: seq<Byte>, from: nat, ghost s: seq<Byte>) returns (at: nat)
      requires from <= |p| && (|s| + from) % 2 == 0 && !odd && sum == Checksum((s + p)[..|s| + from])
      modifies this`sum
      ensures from <= at <= |p| <= at + 1 && (|s| + at) % 2 == 0 && sum == Checksum((s + p)[..|s| + at])
    {
      hide Checksum;
      ghost var all := s + p;
      at := from;
      while |p| - at > 1
        invariant from <= at <= |p| && (|s| + at) % 2 == 0 && sum == Checksum(all[..|s| + at])
      {
        Add(p[at], p[at + 1], all[..|s| + at]);
        assert all[..|s| + at] + [p[at], p[at + 1]] == all[..|s| + at + 2];
        at := at + 2;
      }
    }

    /** csum_update: wherever the data was cut before, the state afterwards is the state of all of it. */
    method Update(p: seq<Byte>, ghost s: seq<Byte>)
      requires After(this, s)
      modifies this
      ensures After(this, s + p)
    {
      hide Checksum;
      if |p| == 0 {
        assert s + p == s;
        return;
      }
      var at: nat := 0;
      ghost var all := s + p;
      if odd {
        Add(tmp, p[0], s[..|s| - 1]);
        assert s[..|s| - 1] + [tmp, p[0]] == all[..|s| + 1];
        odd := false;
        at := 1;
      } else {
        assert s[..|s|] == s == all[..|s|];
      }
      at := AddPairs(p, at, s);
      if |p| - at == 1 {
        tmp := p[at];
        odd := true;
      }
    }

    /** csum_get: a pending byte is completed with a zero. */
    method Get(ghost s: seq<Byte>) returns (r: nat)
      requires After(this, s)
      modifies this
      ensures r == Checksum(s) && After(this, s + [0])
    {
      Update([0], s);
      ghost var n := |s|;
      if n % 2 == 1 {
        assert s[..n - 1] + [s[n - 1]] == s;
        assert s[..n - 1] + [s[n - 1], 0] == (s + [0])[..n + 1];
        ChecksumAppend(s[..n - 1], [s[n - 1]]);
        ChecksumAppend(s[..n - 1], [s[n - 1], 0]);
      } else {
        assert (s + [0])[..n] == s;
      }
      r := sum;
    }
  }

  /** csum_buf. */
  method CsumBuf(p: seq<Byte>) returns (r: nat)
    ensures r == Checksum(p)
  {
    var css := new Csum();
    css.Update(p, []);
    assert [] + p == p;
    r := css.Get(p);
  }

  // ----- the fix word -----

  /** The word that follows the payload; 16-bit subtraction wraps around. */
  function FixWord(csum: nat, ocsum: nat): (t: nat)
    requires csum <= 0xFFFF && ocsum <= 0xFFFF
    ensures t <= 0xFFFF
  {
    if csum <= ocsum then ocsum - csum else (ocsum - csum - 1) % 0x1_0000
  }

  lemma FixWordReaches(c: nat, o: nat)
    requires c <= 0xFFFF && o <= 0xFFFF
    ensures var r := AddWord(c, FixWord(c, o)); r % 0xFFFF == o % 0xFFFF && (r == o <==> o != 0 || c == 0)
  {
    if c <= o {
      assert AddWord(c, FixWord(c, o)) == o;
    } else {
      assert FixWord(c, o) == 0xFFFF + o - c;
      assert AddWord(c, FixWord(c, o)) == if o == 0 then 0xFFFF else o;
    }
  }

  /** The payload with its fix word sums to ocsum modulo 65535, and to ocsum itself unless ocsum is
      zero and the payload is not. */
  lemma FixedSum(payload: seq<Byte>, ocsum: nat)
    requires |payload| % 2 == 0 && ocsum <= 0xFFFF
    ensures var c := Checksum(payload + Be16(FixWord(Checksum(payload), ocsum)));
      c % 0xFFFF == ocsum % 0xFFFF && (c == ocsum <==> ocsum != 0 || Total(payload) == 0)
  {
    hide Total, AddWord, FixWord;
    var csum := Checksum(payload);
    var t := FixWord(csum, ocsum);
    FixWordReaches(csum, ocsum);
    ChecksumAppend(payload, Be16(t));
    assert Word(Be16(t)) == t;
  }

  // ----- the image -----

  /** ALIGN for alignments that are powers of two. */
  function Align(x: nat, y: nat): (r: nat)
    requires y > 0
    ensures x <= r < x + y
  {
    DivBounds(x + (y - 1), y);
    (x + (y - 1)) / y * y
  }

  lemma DivBounds(a: nat, y: nat)
    requires y > 0
    ensures a - y < a / y * y <= a
  {
  }

  datatype Block = Block(align: nat, data: seq<Byte>, isBootExt: bool)

  function Fill(n: nat, b: Byte): (r: seq<Byte>)
    ensures |r| == n
  {
    seq(n, _ => b)
  }

  /** Everything behind the header, in the order it is written; the checksum state follows it. */
  class Image {
    const css: Csum
    var out: seq<Byte>

    ghost predicate Valid()
      reads this, css
    {
      After(css, out)
    }

    constructor ()
      ensures Valid() && fresh(css) && out == []
    {
      css := new Csum();
      out := [];
    }

    method WriteData(data: seq<Byte>)
      requires Valid()
      modifies this, css
      ensures Valid() && out == old(out) + data
    {
      css.Update(data, out);
      out := out + data;
    }

    /** Padding goes out through a buffer of 512 bytes. */
    method WritePadding(len: nat, padc: Byte)
      requires Valid()
      modifies this, css
      ensures Valid() && out == old(out) + Fill(len, padc)
    {
      var rest, buflen := len, 512;
      assert Fill(0, padc) == [];
      while rest > 0
        invariant 0 <= rest <= len && Valid() && 0 < buflen
        invariant out == old(out) + Fill(len - rest, padc)
      {
        if rest < buflen { buflen := rest; }
        WriteData(Fill(buflen, padc));
        assert Fill(len - rest, padc) + Fill(buflen, padc) == Fill(len - rest + buflen, padc);
        rest := rest - buflen;
      }
    }

    /** A file goes out through a buffer of 16 KiB. */
    method WriteFile(data: seq<Byte>)
      requires Valid()
      modifies this, css
      ensures Valid() && out == old(out) + data
    {
      var at, buflen := 0, 16 * 1024;
      while at < |data|
        invariant 0 <= at <= |data| && Valid() && 0 < buflen
        invariant out == old(out) + data[..at]
      {
        if |data| - at < buflen { buflen := |data| - at; }
        WriteData(data[at..at + buflen]);
        assert data[..at] + data[at..at + buflen] == data[..at + buflen];
        at := at + buflen;
      }
      assert data[..at] == data;
    }

    method PadTo(offset: nat, align: nat) returns (r: nat)
      requires Valid() && align > 0
      modifies this, css
      ensures Valid() && r == Align(offset, align)
      ensures old(out) <= out && |out| - |old(out)| == r - offset
    {
      r := Align(offset, align);
      WritePadding(r - offset, 0xFF);
    }

    /** The boot extension, the memory map, and padding up to the end of the boot area. */
    method WriteBoot(romio: nat, start: nat, bootextSize: nat, bootext: seq<Byte>, mmap: seq<Byte>)
      returns (ok: bool, offset: nat)
      requires Valid() && out == [] && romio <= start
      modifies this, css
      ensures Valid() && bootext <= out
      ensures ok == (start + |bootext| <= romio + bootextSize)
      ensures ok ==> offset == start + |out|
    {
      WriteFile(bootext);
      offset := start + |bootext|;
      if offset > romio + bootextSize { return false, offset; }
      offset := PadTo(offset, 16);
      WriteFile(mmap);
      offset := offset + |mmap|;
      if offset - romio < bootextSize {
        WritePadding(romio + bootextSize - offset, 0xFF);
        offset := romio + bootextSize;
      }
      ok := true;
    }

    method WriteBlocks(start: nat, from: nat, blocks: seq<Block>) returns (offset: nat)
      requires Valid() && from == start + |out|
      requires forall i :: 0 <= i < |blocks| ==> blocks[i].align > 0
      modifies this, css
      ensures Valid() && old(out) <= out && offset == start + |out|
    {
      offset := from;
      for i := 0 to |blocks|
        invariant Valid() && old(out) <= out && offset == start + |out|
      {
        if !blocks[i].isBootExt {
          offset := PadTo(offset, blocks[i].align);
          WriteFile(blocks[i].data);
          offset := offset + |blocks[i].data|;
        }
      }
    }

    /** write_out_image behind the header; start is the flash offset just after the header. */
    method Write(romio: nat, start: nat, bootextSize: nat, bootext: seq<Byte>, mmap: seq<Byte>,
                 blocks: seq<Block>, ocsum: nat) returns (ok: bool, ghost payload: seq<Byte>)
      requires Valid() && out == []
      requires start % 4 == 0 && romio <= start && ocsum <= 0xFFFF
      requires forall i :: 0 <= i < |blocks| ==> blocks[i].align > 0
      modifies this, css
      ensures ok == (start + |bootext| <= romio + bootextSize)
      ensures ok ==>
        |payload| % 4 == 0 && bootext <= payload && out == payload + Be16(FixWord(Checksum(payload), ocsum))
      ensures ok ==> Checksum(out) % 0xFFFF == ocsum % 0xFFFF && (ocsum != 0 ==> Checksum(out) == ocsum)
    {
      hide Checksum, FixWord;
      payload := [];
      var offset;
      ok, offset := WriteBoot(romio, start, bootextSize, bootext, mmap);
      if !ok { return; }
      offset := WriteBlocks(start, offset, blocks);
      offset := PadTo(offset, 4);
      payload := out;
      EvenLength(start, offset, |payload|);
      var csum := css.Get(out);
      FixedSum(payload, ocsum);
      out := out + Be16(FixWord(csum, ocsum));
    }
  }

  lemma EvenLength(start: nat, offset: nat, n: nat)
    requires start % 4 == 0 && offset % 4 == 0 && offset == start + n
    ensures n % 4 == 0 && n % 2 == 0
  {
  }
}
