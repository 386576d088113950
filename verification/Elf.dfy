/** The parts of an ELF file that matter for cutting off its end: the two headers, with the field
    layouts of the two classes and byte orders left open. */
module Elf {

  import opened Bytes

  datatype Ehdr = Ehdr(phoff: nat, phnum: nat, shoff: nat, shnum: nat, shentsize: nat, shstrndx: nat, rest: seq<Byte>)

  const PT_NULL: nat := 0

  datatype Phdr = Phdr(kind: nat, offset: nat, filesz: nat, memsz: nat, rest: seq<Byte>)

  /** How headers lie in memory: EGET and ESET for one class and byte order. */
  datatype Format = Format(
    ehdrSize: nat,
    phdrSize: nat,
    recognized: seq<Byte> -> bool,
    readEhdr: seq<Byte> -> Ehdr,
    writeEhdr: Ehdr -> seq<Byte>,
    ehdrFits: Ehdr -> bool,
    readPhdr: seq<Byte> -> Phdr,
    writePhdr: Phdr -> seq<Byte>,
    phdrFits: Phdr -> bool)
  {
    /** What fits its fields is read as it was written, and so is anything smaller. */
    ghost predicate Valid() {
      && phdrSize > 0
      && (forall b :: recognized(b) ==> |b| == ehdrSize && ehdrSize >= 4 && b[..4] == [0x7f, 0x45, 0x4c, 0x46])
      && (forall b :: |b| == ehdrSize ==> ehdrFits(readEhdr(b)))
      && (forall e :: ehdrFits(e) ==> |writeEhdr(e)| == ehdrSize && readEhdr(writeEhdr(e)) == e)
      && (forall e :: ehdrFits(e) ==> ehdrFits(WithoutSections(e)))
      && (forall b :: |b| == phdrSize ==> phdrFits(readPhdr(b)))
      && (forall p :: phdrFits(p) ==> |writePhdr(p)| == phdrSize && readPhdr(writePhdr(p)) == p)
      && (forall p, o: nat, s: nat ::
            phdrFits(p) && o <= p.offset && s <= p.filesz ==> phdrFits(p.(offset := o, filesz := s)))
    }

    function TableSize(n: nat): nat {
      n * phdrSize
    }

    predicate AllFit(ps: seq<Phdr>) {
      forall i :: 0 <= i < |ps| ==> phdrFits(ps[i])
    }

    function ReadTable(b: seq<Byte>, n: nat): (ps: seq<Phdr>)
      ensures |ps| == n
      decreases n
    {
      if n == 0 then []
      else if |b| < phdrSize then [readPhdr(b)] + ReadTable([], n - 1)
      else [readPhdr(b[..phdrSize])] + ReadTable(b[phdrSize..], n - 1)
    }

    function WriteTable(ps: seq<Phdr>): seq<Byte> {
      if ps == [] then [] else writePhdr(ps[0]) + WriteTable(ps[1..])
    }

    lemma {:induction false} TableSizeStep(n: nat)
      requires n > 0
      ensures TableSize(n) == phdrSize + TableSize(n - 1)
    {
    }

    lemma {:induction false} ReadTableFits(b: seq<Byte>, n: nat)
      requires Valid() && |b| == TableSize(n)
      ensures AllFit(ReadTable(b, n))
      decreases n
    {
      if n > 0 {
        TableSizeStep(n);
        ReadTableFits(b[phdrSize..], n - 1);
      }
    }

    lemma {:induction false} WriteTableLength(ps: seq<Phdr>)
      requires Valid() && AllFit(ps)
      ensures |WriteTable(ps)| == TableSize(|ps|)
      decreases |ps|
    {
      if ps != [] {
        TableSizeStep(|ps|);
        WriteTableLength(ps[1..]);
      }
    }

    /** The table is read back as it was written. */
    lemma {:induction false} ReadOfWriteTable(ps: seq<Phdr>)
      requires Valid() && AllFit(ps)
      ensures ReadTable(WriteTable(ps), |ps|) == ps
      decreases |ps|
    {
      if ps != [] {
        var b := WriteTable(ps);
        assert |writePhdr(ps[0])| == phdrSize;
        assert b[..phdrSize] == writePhdr(ps[0]) && b[phdrSize..] == WriteTable(ps[1..]);
        ReadOfWriteTable(ps[1..]);
      }
    }
  }

  function WithoutSections(e: Ehdr): Ehdr {
    e.(shoff := 0, shnum := 0, shentsize := 0, shstrndx := 0)
  }

  // ----- 32 bits, low byte first -----

  function Le16(w: nat): (r: seq<Byte>)
    requires w < 0x1_0000
    ensures |r| == 2
  {
    [w % 256, w / 256]
  }

  function FromLe16(b: seq<Byte>): nat
    requires |b| == 2
  {
    Pair(b[1], b[0])
  }

  predicate Ehdr32Fits(e: Ehdr) {
    && e.phoff < TWO_TO_32 && e.shoff < TWO_TO_32 && |e.rest| == 36
    && e.phnum < 0x1_0000 && e.shnum < 0x1_0000 && e.shentsize < 0x1_0000 && e.shstrndx < 0x1_0000
  }

  function ReadEhdr32(b: seq<Byte>): Ehdr {
    if |b| != 52 then Ehdr(0, 0, 0, 0, 0, 0, []) else
    Ehdr(FromLe32(b[28..32]), FromLe16(b[44..46]), FromLe32(b[32..36]), FromLe16(b[48..50]),
         FromLe16(b[46..48]), FromLe16(b[50..52]), b[..28] + b[36..44])
  }

  function WriteEhdr32(e: Ehdr): seq<Byte> {
    if !Ehdr32Fits(e) then [] else
    e.rest[..28] + Le32(e.phoff) + Le32(e.shoff) + e.rest[28..]
    + Le16(e.phnum) + Le16(e.shentsize) + Le16(e.shnum) + Le16(e.shstrndx)
  }

  predicate Phdr32Fits(p: Phdr) {
    p.kind < TWO_TO_32 && p.offset < TWO_TO_32 && p.filesz < TWO_TO_32 && p.memsz < TWO_TO_32 && |p.rest| == 16
  }

  function ReadPhdr32(b: seq<Byte>): Phdr {
    if |b| != 32 then Phdr(0, 0, 0, 0, []) else
    Phdr(FromLe32(b[..4]), FromLe32(b[4..8]), FromLe32(b[16..20]), FromLe32(b[20..24]), b[8..16] + b[24..])
  }

  function WritePhdr32(p: Phdr): seq<Byte> {
    if !Phdr32Fits(p) then [] else
    Le32(p.kind) + Le32(p.offset) + p.rest[..8] + Le32(p.filesz) + Le32(p.memsz) + p.rest[8..]
  }

  /** Signature, class, byte order, e_type, e_ehsize and e_phentsize. */
  predicate Recognized32(b: seq<Byte>) {
    |b| == 52 && b[..4] == [0x7f, 0x45, 0x4c, 0x46] && b[4..6] == [1, 1] && b[16..18] in {[2, 0], [3, 0]}
    && b[40..44] == [52, 0, 32, 0]
  }

  const ELF32 := Format(52, 32, Recognized32, ReadEhdr32, WriteEhdr32, Ehdr32Fits, ReadPhdr32, WritePhdr32, Phdr32Fits)

  lemma Ehdr32ReadsBack(e: Ehdr)
    requires Ehdr32Fits(e)
    ensures |WriteEhdr32(e)| == 52 && ReadEhdr32(WriteEhdr32(e)) == e
  {
    hide Le32, FromLe32;
    var b := WriteEhdr32(e);
    assert b[28..32] == Le32(e.phoff) && b[32..36] == Le32(e.shoff);
    assert b[44..46] == Le16(e.phnum) && b[46..48] == Le16(e.shentsize);
    assert b[48..50] == Le16(e.shnum) && b[50..52] == Le16(e.shstrndx);
    assert b[..28] + b[36..44] == e.rest;
    FromLe32OfLe32(e.phoff);
    FromLe32OfLe32(e.shoff);
  }

  lemma Phdr32ReadsBack(p: Phdr)
    requires Phdr32Fits(p)
    ensures |WritePhdr32(p)| == 32 && ReadPhdr32(WritePhdr32(p)) == p
  {
    hide Le32, FromLe32;
    var b := WritePhdr32(p);
    var u, v := p.rest[..8], p.rest[8..];
    assert |u| == 8 && |v| == 8 && u + v == p.rest;
    assert |b| == 32 && b[..4] == Le32(p.kind) && b[4..8] == Le32(p.offset);
    assert b[16..20] == Le32(p.filesz) && b[20..24] == Le32(p.memsz);
    assert b[8..16] == u && b[24..] == v;
    FromLe32OfLe32(p.kind);
    FromLe32OfLe32(p.offset);
    FromLe32OfLe32(p.filesz);
    FromLe32OfLe32(p.memsz);
  }

  /** The 32-bit layout with low bytes first satisfies what the rest of the model asks of a format. */
  lemma Elf32IsValid()
    ensures ELF32.Valid()
  {
    hide WriteEhdr32, WritePhdr32, Le32, FromLe32;
    forall e | Ehdr32Fits(e) ensures |WriteEhdr32(e)| == 52 && ReadEhdr32(WriteEhdr32(e)) == e {
      Ehdr32ReadsBack(e);
    }
    forall p | Phdr32Fits(p) ensures |WritePhdr32(p)| == 32 && ReadPhdr32(WritePhdr32(p)) == p {
      Phdr32ReadsBack(p);
    }
  }

  function LowFirst(a: int, b: int, c: int, d: int): int {
    a + 0x100 * b + 0x1_0000 * c + 0x100_0000 * d
  }

  /** Where the fields lie, byte by byte, low byte first. */
  lemma FieldsOf32(h: seq<Byte>, b: seq<Byte>)
    requires |h| == 52 && |b| == 32
    ensures var e := ReadEhdr32(h);
      && e.phoff == LowFirst(h[28], h[29], h[30], h[31])
      && e.shoff == LowFirst(h[32], h[33], h[34], h[35])
      && e.phnum == LowFirst(h[44], h[45], 0, 0) && e.shentsize == LowFirst(h[46], h[47], 0, 0)
      && e.shnum == LowFirst(h[48], h[49], 0, 0) && e.shstrndx == LowFirst(h[50], h[51], 0, 0)
    ensures var p := ReadPhdr32(b);
      && p.kind == LowFirst(b[0], b[1], b[2], b[3])
      && p.offset == LowFirst(b[4], b[5], b[6], b[7])
      && p.filesz == LowFirst(b[16], b[17], b[18], b[19])
      && p.memsz == LowFirst(b[20], b[21], b[22], b[23])
  {
  }
}
