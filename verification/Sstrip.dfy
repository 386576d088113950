/** Cutting off the end of an ELF file without changing what its segments put into memory. */
module Sstrip {

  import opened Bytes
  import opened Elf
  import opened Options

  // ----- what the steps compute -----

  function Max(a: nat, b: nat): nat { if a < b then b else a }

  /** The end of the last byte that a program header refers to, at least base. */
  function Extent(base: nat, ps: seq<Phdr>): (r: nat)
    ensures r >= base
    ensures forall i :: 0 <= i < |ps| && ps[i].kind != PT_NULL ==> ps[i].offset + ps[i].filesz <= r
  {
    if ps == [] then base
    else
      var p := ps[|ps| - 1];
      var r := Extent(base, ps[..|ps| - 1]);
      if p.kind == PT_NULL then r else Max(r, p.offset + p.filesz)
  }

  predicate Blank(file: seq<Byte>, from: nat, to: nat)
    requires to <= |file|
  {
    forall k :: from <= k < to ==> file[k] == 0
  }

  /** The size without the zero bytes at the end. */
  function Trim(file: seq<Byte>, size: nat): (r: nat)
    requires size <= |file|
    ensures r <= size && Blank(file, r, size) && (r > 0 ==> file[r - 1] != 0)
  {
    if size == 0 || file[size - 1] != 0 then size else Trim(file, size - 1)
  }

  function Adjust(p: Phdr, newsize: nat): Phdr {
    if p.offset >= newsize then p.(offset := newsize, filesz := 0)
    else if p.offset + p.filesz > newsize then p.(filesz := newsize - p.offset)
    else p
  }

  function AdjustAll(ps: seq<Phdr>, newsize: nat): (r: seq<Phdr>)
    ensures |r| == |ps|
  {
    seq(|ps|, i requires 0 <= i < |ps| => Adjust(ps[i], newsize))
  }

  function AdjustHeader(e: Ehdr, newsize: nat): Ehdr {
    if e.shoff >= newsize then WithoutSections(e) else e
  }

  // ----- the file behind a descriptor -----

  function Zeros(n: nat): (r: seq<Byte>)
    ensures |r| == n
  {
    seq(n, _ => 0)
  }

  function Resize(file: seq<Byte>, size: nat): (r: seq<Byte>)
    ensures |r| == size
  {
    if size <= |file| then file[..size] else file + Zeros(size - |file|)
  }

  /** write at a position, over what is there and behind it. */
  function WriteAt(file: seq<Byte>, pos: nat, data: seq<Byte>): (r: seq<Byte>)
    ensures |r| == Max(|file|, pos + |data|)
  {
    var f := Resize(file, Max(|file|, pos + |data|));
    f[..pos] + data + f[pos + |data|..]
  }

  class Fd {
    var bytes: seq<Byte>
    var pos: nat

    method Read(n: nat) returns (data: seq<Byte>)
      modifies this`pos
      ensures data == if old(pos) + n <= |bytes| then bytes[old(pos)..old(pos) + n]
                      else if old(pos) <= |bytes| then bytes[old(pos)..] else []
      ensures pos == old(pos) + |data|
    {
      var end := if pos + n <= |bytes| then pos + n else Max(|bytes|, pos);
      data := if pos <= |bytes| then bytes[pos..end] else [];
      pos := end;
    }

    method Seek(to: nat)
      modifies this`pos
      ensures pos == to
    {
      pos := to;
    }

    method Write(data: seq<Byte>)
      modifies this
      ensures bytes == WriteAt(old(bytes), old(pos), data) && pos == old(pos) + |data|
    {
      bytes := WriteAt(bytes, pos, data);
      pos := pos + |data|;
    }

    method Truncate(size: nat)
      modifies this`bytes
      ensures bytes == Resize(old(bytes), size)
    {
      bytes := Resize(bytes, size);
    }
  }

  // ----- the steps -----

  method GetMemorySize(fmt: Format, e: Ehdr, phdrs: array<Phdr>) returns (size: nat)
    requires phdrs.Length == e.phnum
    ensures size == Extent(Max(e.phoff + fmt.TableSize(e.phnum), fmt.ehdrSize), phdrs[..])
  {
    size := e.phoff + fmt.TableSize(e.phnum);
    if size < fmt.ehdrSize { size := fmt.ehdrSize; }
    ghost var base := size;
    for i := 0 to e.phnum
      invariant size == Extent(base, phdrs[..i])
    {
      assert phdrs[..i + 1][..i] == phdrs[..i];
      if phdrs[i].kind != PT_NULL {
        var n := phdrs[i].offset + phdrs[i].filesz;
        if n > size { size := n; }
      }
    }
    assert phdrs[..e.phnum] == phdrs[..];
  }

  /** The inner loop: zeros at the end of one window. n is the place of the byte looked at last. */
  method ScanWindow(fd: Fd, contents: seq<Byte>, from: nat) returns (size: nat, n: nat)
    requires |contents| > 0 && from + |contents| <= |fd.bytes|
    requires contents == fd.bytes[from..from + |contents|]
    ensures from <= size <= from + |contents| && Blank(fd.bytes, size, from + |contents|)
    ensures n == if size > from then size - 1 - from else 0
    ensures size > from ==> fd.bytes[size - 1] != 0
  {
    n := |contents|;
    size := from + n;
    while n > 0
      invariant n <= |contents| && size == from + n
      invariant Blank(fd.bytes, size, from + |contents|)
    {
      n := n - 1;
      if contents[n] != 0 { return; }
      assert fd.bytes[from + n] == contents[n];
      size := size - 1;
    }
  }

  /** The loop ends unless the only byte left that is not zero is the very first one. */
  predicate MoreThanFirst(file: seq<Byte>, size: nat)
    requires size <= |file|
  {
    Trim(file, size) != 1
  }

  /** truncatezeros: windows of 1024 bytes from the end. */
  method TruncateZeros(fd: Fd, newsize: nat) returns (r: Option<nat>)
    requires newsize > 0 && (newsize <= |fd.bytes| ==> MoreThanFirst(fd.bytes, newsize))
    modifies fd`pos
    ensures r.Some? <==> newsize <= |fd.bytes| && Trim(fd.bytes, newsize) > 0
    ensures r.Some? ==> r.value == Trim(fd.bytes, newsize)
  {
    var size: nat, again := newsize, true;
    while again
      invariant size <= newsize && (again ==> size > 0)
      invariant size < newsize || !again ==> newsize <= |fd.bytes|
      invariant newsize <= |fd.bytes| ==> Trim(fd.bytes, size) == Trim(fd.bytes, newsize)
      invariant !again ==> size == Trim(fd.bytes, newsize)
      invariant again && size < newsize ==> Trim(fd.bytes, newsize) != 1
      decreases again, size
    {
      var n := 1024;
      if n > size { n := size; }
      var from := size - n;
      fd.Seek(from);
      var contents := fd.Read(n);
      if |contents| != n { return None; }
      ghost var before := size;
      size, n := ScanWindow(fd, contents, from);
      TrimSkips(fd.bytes, before, size);
      again := size > 0 && n == 0;
    }
    r := if size == 0 then None else Some(size);
  }

  lemma {:induction false} TrimSkips(file: seq<Byte>, size: nat, to: nat)
    requires to <= size <= |file| && Blank(file, to, size)
    ensures Trim(file, size) == Trim(file, to)
  {
    if to < size {
      TrimSkips(file, size - 1, to);
    }
  }

  method ModifyHeaders(e: Ehdr, phdrs: array<Phdr>, newsize: nat) returns (e': Ehdr)
    requires phdrs.Length == e.phnum
    modifies phdrs
    ensures e' == AdjustHeader(e, newsize) && phdrs[..] == AdjustAll(old(phdrs[..]), newsize)
  {
    e' := e;
    if e'.shoff >= newsize {
      e' := e'.(shoff := 0);
      e' := e'.(shnum := 0);
      e' := e'.(shentsize := 0);
      e' := e'.(shstrndx := 0);
    }
    ghost var was := phdrs[..];
    for i := 0 to e'.phnum
      invariant forall k :: 0 <= k < i ==> phdrs[k] == Adjust(was[k], newsize)
      invariant forall k :: i <= k < phdrs.Length ==> phdrs[k] == was[k]
    {
      if phdrs[i].offset >= newsize {
        phdrs[i] := phdrs[i].(offset := newsize);
        phdrs[i] := phdrs[i].(filesz := 0);
      } else if phdrs[i].offset + phdrs[i].filesz > newsize {
        phdrs[i] := phdrs[i].(filesz := newsize - phdrs[i].offset);
      }
    }
  }

  function Committed(fmt: Format, file: seq<Byte>, e: Ehdr, ps: seq<Phdr>, newsize: nat): seq<Byte> {
    var f := WriteAt(WriteAt(file, 0, fmt.writeEhdr(e)), e.phoff, fmt.WriteTable(ps));
    Resize(f, Max(newsize, e.phoff + fmt.TableSize(e.phnum)))
  }

  method CommitChanges(fmt: Format, fd: Fd, e: Ehdr, phdrs: array<Phdr>, newsize: nat)
    modifies fd
    ensures fd.bytes == Committed(fmt, old(fd.bytes), e, phdrs[..], newsize)
  {
    fd.Seek(0);
    fd.Write(fmt.writeEhdr(e));
    fd.Seek(e.phoff);
    var n := fmt.TableSize(e.phnum);
    fd.Write(fmt.WriteTable(phdrs[..]));
    var size := newsize;
    if size < e.phoff + n { size := e.phoff + n; }
    fd.Truncate(size);
  }

  /** The headers as the program reads them: the table right behind the ELF header, wherever e_phoff points. */
  function Header(fmt: Format, file: seq<Byte>): Option<Ehdr> {
    if |file| < fmt.ehdrSize || !fmt.recognized(file[..fmt.ehdrSize]) then None
    else
      var e := fmt.readEhdr(file[..fmt.ehdrSize]);
      if e.phoff == 0 || e.phnum == 0 || |file| < fmt.ehdrSize + fmt.TableSize(e.phnum) then None else Some(e)
  }

  function TableAt(fmt: Format, file: seq<Byte>, at: nat, n: nat): (ps: seq<Phdr>)
    ensures |ps| == n
  {
    var size := fmt.TableSize(n);
    fmt.ReadTable(if at + size <= |file| then file[at..at + size] else [], n)
  }

  function SizeNeeded(fmt: Format, file: seq<Byte>, e: Ehdr): (r: nat)
    ensures r >= e.phoff + fmt.TableSize(e.phnum) && r >= fmt.ehdrSize
  {
    Extent(Max(e.phoff + fmt.TableSize(e.phnum), fmt.ehdrSize), TableAt(fmt, file, fmt.ehdrSize, e.phnum))
  }

  function Stripped(fmt: Format, file: seq<Byte>): Option<seq<Byte>> {
    var h := Header(fmt, file);
    if h.None? || SizeNeeded(fmt, file, h.value) > |file| then None
    else
      var e := h.value;
      var newsize := Trim(file, SizeNeeded(fmt, file, e));
      if newsize == 0 then None
      else
        var ps := TableAt(fmt, file, fmt.ehdrSize, e.phnum);
        Some(Committed(fmt, file, AdjustHeader(e, newsize), AdjustAll(ps, newsize), newsize))
  }

  /** The signature keeps the zeros from reaching the front of the file. */
  lemma SignatureStays(fmt: Format, file: seq<Byte>, size: nat)
    requires fmt.Valid() && Header(fmt, file).Some? && fmt.ehdrSize <= size <= |file|
    ensures Trim(file, size) >= 4
  {
    var b := file[..fmt.ehdrSize];
    assert fmt.recognized(b) && b[..4][3] == 0x46 && file[3] == b[3];
  }

  method ReadElfHeader(fmt: Format, fd: Fd) returns (e: Option<Ehdr>)
    requires fd.pos == 0
    modifies fd`pos
    ensures e.Some? <==> fmt.ehdrSize <= |fd.bytes| && fmt.recognized(fd.bytes[..fmt.ehdrSize])
    ensures e.Some? ==> fd.pos == fmt.ehdrSize && e.value == fmt.readEhdr(fd.bytes[..fmt.ehdrSize])
  {
    var b := fd.Read(fmt.ehdrSize);
    if |b| != fmt.ehdrSize || !fmt.recognized(b) { return None; }
    e := Some(fmt.readEhdr(b));
  }

  /** Reads on from where the ELF header ended. */
  method ReadPhdrTable(fmt: Format, fd: Fd, e: Ehdr) returns (phdrs: array<Phdr>, ok: bool)
    requires fd.pos == fmt.ehdrSize <= |fd.bytes|
    modifies fd`pos
    ensures ok <==> e.phoff != 0 && e.phnum != 0 && fmt.ehdrSize + fmt.TableSize(e.phnum) <= |fd.bytes|
    ensures fresh(phdrs)
    ensures ok ==> phdrs.Length == e.phnum && phdrs[..] == TableAt(fmt, fd.bytes, fmt.ehdrSize, e.phnum)
  {
    if e.phoff == 0 || e.phnum == 0 { return new Phdr[0], false; }
    var size := fmt.TableSize(e.phnum);
    var t := fd.Read(size);
    if |t| != size { return new Phdr[0], false; }
    var ps := fmt.ReadTable(t, e.phnum);
    phdrs := new Phdr[e.phnum](i requires 0 <= i < e.phnum => ps[i]);
    assert phdrs[..] == ps;
    ok := true;
  }

  method StripHeaders(fmt: Format, fd: Fd, e: Ehdr, phdrs: array<Phdr>) returns (ok: bool)
    requires fmt.Valid() && Header(fmt, fd.bytes) == Some(e)
    requires phdrs.Length == e.phnum && phdrs[..] == TableAt(fmt, fd.bytes, fmt.ehdrSize, e.phnum)
    modifies fd, phdrs
    ensures ok <==> Stripped(fmt, old(fd.bytes)).Some?
    ensures fd.bytes == if ok then Stripped(fmt, old(fd.bytes)).value else old(fd.bytes)
  {
    hide Committed, AdjustAll, Extent, TableAt, Header;
    var needed := GetMemorySize(fmt, e, phdrs);
    assert needed == SizeNeeded(fmt, fd.bytes, e);
    if needed <= |fd.bytes| { SignatureStays(fmt, fd.bytes, needed); }
    var newsize := TruncateZeros(fd, needed);
    if newsize.None? { return false; }
    var e' := ModifyHeaders(e, phdrs, newsize.value);
    CommitChanges(fmt, fd, e', phdrs, newsize.value);
    ok := true;
  }

  /** main for one file: all steps succeed or the file stays as it is. */
  method Strip(fmt: Format, fd: Fd) returns (ok: bool)
    requires fmt.Valid() && fd.pos == 0
    modifies fd
    ensures ok <==> Stripped(fmt, old(fd.bytes)).Some?
    ensures fd.bytes == if ok then Stripped(fmt, old(fd.bytes)).value else old(fd.bytes)
  {
    hide SizeNeeded, Committed, AdjustAll, TableAt;
    var e := ReadElfHeader(fmt, fd);
    if e.None? { return false; }
    var phdrs, read := ReadPhdrTable(fmt, fd, e.value);
    if !read { return false; }
    ok := StripHeaders(fmt, fd, e.value, phdrs);
  }

  // ----- what a loader sees -----

  /** Byte k of a segment in memory: from the file, and zero behind p_filesz. */
  function Image(file: seq<Byte>, p: Phdr, k: nat): Byte
    requires p.offset + p.filesz <= |file|
  {
    if k < p.filesz then file[p.offset + k] else 0
  }

  predicate InHeaders(fmt: Format, e: Ehdr, at: nat) {
    at < fmt.ehdrSize || e.phoff <= at < e.phoff + fmt.TableSize(e.phnum)
  }

  /** The table that e_phoff points to is the one the program reads. */
  predicate TableInPlace(fmt: Format, file: seq<Byte>, e: Ehdr) {
    var n := fmt.TableSize(e.phnum);
    e.phoff + n <= |file| && fmt.ehdrSize + n <= |file|
    && file[e.phoff..e.phoff + n] == file[fmt.ehdrSize..fmt.ehdrSize + n]
  }

  lemma AdjustedFit(fmt: Format, ps: seq<Phdr>, newsize: nat)
    requires fmt.Valid() && fmt.AllFit(ps)
    ensures fmt.AllFit(AdjustAll(ps, newsize))
  {
    forall i | 0 <= i < |ps| ensures fmt.phdrFits(Adjust(ps[i], newsize)) {
      var p := ps[i];
      if p.offset >= newsize {
        assert fmt.phdrFits(p.(offset := newsize, filesz := 0));
      } else if p.offset + p.filesz > newsize {
        assert fmt.phdrFits(p.(offset := p.offset, filesz := newsize - p.offset));
        assert p.(offset := p.offset, filesz := newsize - p.offset) == p.(filesz := newsize - p.offset);
      }
    }
  }

  lemma WriteWithin(file: seq<Byte>, pos: nat, data: seq<Byte>)
    requires pos + |data| <= |file|
    ensures var r := WriteAt(file, pos, data);
      && |r| == |file| && r[pos..pos + |data|] == data
      && forall k :: 0 <= k < |file| && !(pos <= k < pos + |data|) ==> r[k] == file[k]
  {
  }

  /** Where the two writes land, and that they leave everything else alone. A table that begins within the ELF
      header is written over it. */
  lemma CommittedBytes(file: seq<Byte>, head: seq<Byte>, phoff: nat, table: seq<Byte>, newsize: nat)
    requires |head| <= |file| && phoff + |table| <= |file| && newsize <= |file|
    ensures var out := Resize(WriteAt(WriteAt(file, 0, head), phoff, table), Max(newsize, phoff + |table|));
      && (|head| <= phoff ==> out[..|head|] == head) && out[phoff..phoff + |table|] == table
      && forall k :: |head| <= k < |out| && !(phoff <= k < phoff + |table|) ==> out[k] == file[k]
  {
    hide WriteAt;
    WriteWithin(file, 0, head);
    var f := WriteAt(file, 0, head);
    WriteWithin(f, phoff, table);
    var g := WriteAt(f, phoff, table);
    if |head| <= phoff {
      assert g[..|head|] == f[..|head|] == head;
    }
  }

  /** The segment a loader sees before and after: same type, place and size in memory, inside the
      file, and the same bytes except where the headers themselves are mapped. */
  ghost predicate SameSegment(fmt: Format, file: seq<Byte>, out: seq<Byte>, e: Ehdr, p: Phdr, q: Phdr) {
    && q.kind == p.kind && q.memsz == p.memsz && q.rest == p.rest
    && (p.kind != PT_NULL ==>
      && p.offset + p.filesz <= |file| && q.offset + q.filesz <= |out|
      && forall k :: 0 <= k && !(k < q.filesz && InHeaders(fmt, e, q.offset + k)) ==>
           Image(out, q, k) == Image(file, p, k))
  }

  lemma AdjustKeepsImage(fmt: Format, file: seq<Byte>, out: seq<Byte>, e: Ehdr, p: Phdr, size: nat, newsize: nat)
    requires newsize <= size <= |file| && newsize <= |out| && Blank(file, newsize, size)
    requires p.kind != PT_NULL ==> p.offset + p.filesz <= size
    requires forall k :: 0 <= k < newsize && !InHeaders(fmt, e, k) ==> out[k] == file[k]
    ensures SameSegment(fmt, file, out, e, p, Adjust(p, newsize))
  {
  }

  lemma TableReadsBack(fmt: Format, out: seq<Byte>, at: nat, ps: seq<Phdr>)
    requires fmt.Valid() && fmt.AllFit(ps)
    requires at + |fmt.WriteTable(ps)| <= |out| && out[at..at + |fmt.WriteTable(ps)|] == fmt.WriteTable(ps)
    ensures TableAt(fmt, out, at, |ps|) == ps
  {
    hide Format.Valid;
    fmt.WriteTableLength(ps);
    fmt.ReadOfWriteTable(ps);
  }

  lemma TableFits(fmt: Format, file: seq<Byte>, at: nat, n: nat)
    requires fmt.Valid() && at + fmt.TableSize(n) <= |file|
    ensures fmt.AllFit(TableAt(fmt, file, at, n))
  {
    hide Format.Valid;
    fmt.ReadTableFits(file[at..at + fmt.TableSize(n)], n);
  }

  lemma HeaderFits(fmt: Format, file: seq<Byte>, newsize: nat)
    requires fmt.Valid() && Header(fmt, file).Some?
    ensures var e := AdjustHeader(Header(fmt, file).value, newsize);
      |fmt.writeEhdr(e)| == fmt.ehdrSize && fmt.readEhdr(fmt.writeEhdr(e)) == e
  {
    assert fmt.ehdrFits(Header(fmt, file).value);
  }

  /** What the new file holds: the ELF header can be read back unless the table overlaps it, the table is the
      adjusted one, and the rest is unchanged up to the new end. */
  ghost predicate Parts(fmt: Format, file: seq<Byte>, e: Ehdr, newsize: nat, out: seq<Byte>) {
    && |out| == Max(newsize, e.phoff + fmt.TableSize(e.phnum))
    && (fmt.ehdrSize <= e.phoff ==> fmt.readEhdr(out[..fmt.ehdrSize]) == AdjustHeader(e, newsize))
    && TableAt(fmt, out, e.phoff, e.phnum) == AdjustAll(TableAt(fmt, file, fmt.ehdrSize, e.phnum), newsize)
    && forall k :: 0 <= k < |out| && k < |file| && !InHeaders(fmt, e, k) ==> out[k] == file[k]
  }

  lemma CommittedParts(fmt: Format, file: seq<Byte>, e: Ehdr, newsize: nat, ps: seq<Phdr>)
    requires fmt.Valid() && |fmt.writeEhdr(AdjustHeader(e, newsize))| == fmt.ehdrSize
    requires fmt.readEhdr(fmt.writeEhdr(AdjustHeader(e, newsize))) == AdjustHeader(e, newsize)
    requires fmt.AllFit(AdjustAll(ps, newsize)) && |ps| == e.phnum && ps == TableAt(fmt, file, fmt.ehdrSize, e.phnum)
    requires fmt.ehdrSize <= |file| && e.phoff + fmt.TableSize(e.phnum) <= |file| && newsize <= |file|
    ensures Parts(fmt, file, e, newsize,
                  Committed(fmt, file, AdjustHeader(e, newsize), AdjustAll(ps, newsize), newsize))
  {
    hide Format.Valid, AdjustAll, TableAt, WriteAt, Resize, Format.TableSize, Format.WriteTable, Format.AllFit;
    var table := AdjustAll(ps, newsize);
    fmt.WriteTableLength(table);
    CommittedBytes(file, fmt.writeEhdr(AdjustHeader(e, newsize)), e.phoff, fmt.WriteTable(table), newsize);
    TableReadsBack(fmt, Committed(fmt, file, AdjustHeader(e, newsize), table, newsize), e.phoff, table);
  }

  lemma StrippedParts(fmt: Format, file: seq<Byte>, e: Ehdr, out: seq<Byte>)
    requires fmt.Valid() && Header(fmt, file) == Some(e) && Stripped(fmt, file) == Some(out)
    ensures SizeNeeded(fmt, file, e) <= |file| && Parts(fmt, file, e, Trim(file, SizeNeeded(fmt, file, e)), out)
  {
    var newsize := Trim(file, SizeNeeded(fmt, file, e));
    var ps := TableAt(fmt, file, fmt.ehdrSize, e.phnum);
    assert fmt.ehdrSize + fmt.TableSize(e.phnum) <= |file|;
    hide Format.Valid, Committed, Parts, TableAt, Format.AllFit, AdjustAll;
    HeaderFits(fmt, file, newsize);
    TableFits(fmt, file, fmt.ehdrSize, e.phnum);
    AdjustedFit(fmt, ps, newsize);
    CommittedParts(fmt, file, e, newsize, ps);
  }

  lemma SameTable(fmt: Format, file: seq<Byte>, e: Ehdr)
    requires TableInPlace(fmt, file, e)
    ensures TableAt(fmt, file, e.phoff, e.phnum) == TableAt(fmt, file, fmt.ehdrSize, e.phnum)
  {
  }

  /** With the table in its usual place, stripping keeps every segment. */
  lemma SegmentsAreKept(fmt: Format, file: seq<Byte>, e: Ehdr, out: seq<Byte>)
    requires fmt.Valid() && Header(fmt, file) == Some(e) && Stripped(fmt, file) == Some(out)
    requires TableInPlace(fmt, file, e)
    ensures |out| <= |file|
    ensures var before, after := TableAt(fmt, file, e.phoff, e.phnum), TableAt(fmt, out, e.phoff, e.phnum);
      forall i :: 0 <= i < e.phnum ==> SameSegment(fmt, file, out, e, before[i], after[i])
  {
    hide Format.Valid, Stripped, Header, TableAt, SameSegment, Trim, Extent, TableInPlace, Parts;
    SameTable(fmt, file, e);
    StrippedParts(fmt, file, e, out);
    KeptByParts(fmt, file, e, out, TableAt(fmt, file, fmt.ehdrSize, e.phnum), SizeNeeded(fmt, file, e));
  }

  lemma KeptByParts(fmt: Format, file: seq<Byte>, e: Ehdr, out: seq<Byte>, ps: seq<Phdr>, size: nat)
    requires size <= |file| && ps == TableAt(fmt, file, fmt.ehdrSize, e.phnum)
    requires size == Extent(Max(e.phoff + fmt.TableSize(e.phnum), fmt.ehdrSize), ps)
    requires Parts(fmt, file, e, Trim(file, size), out)
    ensures |out| <= |file|
    ensures forall i :: 0 <= i < e.phnum ==>
      SameSegment(fmt, file, out, e, ps[i], TableAt(fmt, out, e.phoff, e.phnum)[i])
  {
    hide TableAt, SameSegment;
    var newsize := Trim(file, size);
    forall i | 0 <= i < e.phnum ensures SameSegment(fmt, file, out, e, ps[i], Adjust(ps[i], newsize)) {
      AdjustKeepsImage(fmt, file, out, e, ps[i], size, newsize);
    }
  }

  /** The fields that place a segment in memory. */
  predicate SamePlace(p: Phdr, q: Phdr) {
    p.kind == q.kind && p.memsz == q.memsz && p.rest == q.rest
  }

  predicate SamePlaces(ps: seq<Phdr>, qs: seq<Phdr>) {
    |ps| == |qs| && forall i :: 0 <= i < |ps| ==> SamePlace(ps[i], qs[i])
  }

  lemma AdjustKeepsPlaces(ps: seq<Phdr>, qs: seq<Phdr>, newsize: nat)
    ensures SamePlaces(ps, AdjustAll(qs, newsize)) <==> SamePlaces(ps, qs)
  {
    assert forall i :: 0 <= i < |qs| ==> SamePlace(qs[i], AdjustAll(qs, newsize)[i]);
  }

  /** With a table elsewhere, the segments keep their places if and only if the bytes behind the ELF
      header happen to describe the same places: those are the bytes the program reads. */
  lemma PlacesKeptIffTablesAgree(fmt: Format, file: seq<Byte>, e: Ehdr, out: seq<Byte>)
    requires fmt.Valid() && Header(fmt, file) == Some(e) && Stripped(fmt, file) == Some(out)
    ensures var pointed := TableAt(fmt, file, e.phoff, e.phnum);
      SamePlaces(pointed, TableAt(fmt, out, e.phoff, e.phnum)) <==>
      SamePlaces(pointed, TableAt(fmt, file, fmt.ehdrSize, e.phnum))
  {
    StrippedParts(fmt, file, e, out);
    hide Format.Valid, Stripped, Header, TableAt, SamePlaces, AdjustAll, Trim;
    AdjustKeepsPlaces(TableAt(fmt, file, e.phoff, e.phnum), TableAt(fmt, file, fmt.ehdrSize, e.phnum),
                      Trim(file, SizeNeeded(fmt, file, e)));
  }

  // ----- exactly which files keep their segments -----

  /** The entry r that the program reads tells what the entry p does that a loader reads: the same place, and
      the same bytes except where r maps the headers themselves. */
  ghost predicate Tells(fmt: Format, file: seq<Byte>, e: Ehdr, newsize: nat, p: Phdr, r: Phdr) {
    && SamePlace(p, r)
    && (p.kind != PT_NULL ==>
      && p.offset + p.filesz <= |file| && r.offset + r.filesz <= |file|
      && forall k :: 0 <= k && !(k < Adjust(r, newsize).filesz && InHeaders(fmt, e, r.offset + k)) ==>
           Image(file, p, k) == Image(file, r, k))
  }

  /** Cutting keeps what r describes, so the loader's segment is kept if and only if r describes it. */
  lemma KeptIffTold(fmt: Format, file: seq<Byte>, out: seq<Byte>, e: Ehdr, p: Phdr, r: Phdr, size: nat, newsize: nat)
    requires newsize <= size <= |file| && newsize <= |out| && Blank(file, newsize, size)
    requires r.kind != PT_NULL ==> r.offset + r.filesz <= size
    requires forall k :: 0 <= k < newsize && !InHeaders(fmt, e, k) ==> out[k] == file[k]
    ensures SameSegment(fmt, file, out, e, p, Adjust(r, newsize)) <==> Tells(fmt, file, e, newsize, p, r)
  {
    AdjustKeepsImage(fmt, file, out, e, r, size, newsize);
  }

  /** Every segment is kept if and only if the table the program reads, behind the ELF header, tells what the
      table at e_phoff tells. */
  lemma SegmentsKeptIffTold(fmt: Format, file: seq<Byte>, e: Ehdr, out: seq<Byte>)
    requires fmt.Valid() && Header(fmt, file) == Some(e) && Stripped(fmt, file) == Some(out)
    ensures var pointed, read := TableAt(fmt, file, e.phoff, e.phnum), TableAt(fmt, file, fmt.ehdrSize, e.phnum);
      var newsize, after := Trim(file, SizeNeeded(fmt, file, e)), TableAt(fmt, out, e.phoff, e.phnum);
      (forall i :: 0 <= i < e.phnum ==> SameSegment(fmt, file, out, e, pointed[i], after[i])) <==>
      (forall i :: 0 <= i < e.phnum ==> Tells(fmt, file, e, newsize, pointed[i], read[i]))
  {
    var pointed, read := TableAt(fmt, file, e.phoff, e.phnum), TableAt(fmt, file, fmt.ehdrSize, e.phnum);
    var size := SizeNeeded(fmt, file, e);
    var newsize := Trim(file, size);
    StrippedParts(fmt, file, e, out);
    hide Format.Valid, Stripped, Header, TableAt, SameSegment, Trim, Tells;
    forall i | 0 <= i < e.phnum
      ensures SameSegment(fmt, file, out, e, pointed[i], Adjust(read[i], newsize))
         <==> Tells(fmt, file, e, newsize, pointed[i], read[i])
    {
      KeptIffTold(fmt, file, out, e, pointed[i], read[i], size, newsize);
    }
  }

  // ----- a file that loses its segment -----

  const NO_SEGMENT := Phdr(PT_NULL, 0, 0, 0, Zeros(16))

  /** Four bytes at 116, to be loaded. */
  const SEGMENT := Phdr(1, 116, 4, 4, Zeros(16))

  /** An ELF header for one program header, at 84. */
  function HeaderAt84(): Ehdr {
    Ehdr(84, 1, 0, 0, 0, 0, [0x7f, 0x45, 0x4c, 0x46, 1, 1] + Zeros(10) + [2, 0] + Zeros(10) + Zeros(4) + [52, 0, 32, 0])
  }

  /** The ELF header, an unused entry behind it, the program header, and the four bytes. */
  function TableElsewhere(): seq<Byte> {
    WriteEhdr32(HeaderAt84()) + WritePhdr32(NO_SEGMENT) + WritePhdr32(SEGMENT) + [1, 2, 3, 4]
  }

  lemma RecognizedByRest(e: Ehdr)
    requires Ehdr32Fits(e) && e.rest[..4] == [0x7f, 0x45, 0x4c, 0x46] && e.rest[4..6] == [1, 1]
    requires e.rest[16..18] == [2, 0] && e.rest[32..36] == [52, 0, 32, 0]
    ensures Recognized32(WriteEhdr32(e))
  {
    hide Le32, FromLe32, Le16;
    var b := WriteEhdr32(e);
    assert b[..28] == e.rest[..28] && b[36..44] == e.rest[28..];
    assert b[..4] == b[..28][..4] == e.rest[..4];
    assert b[4..6] == b[..28][4..6] == e.rest[4..6];
    assert b[16..18] == b[..28][16..18] == e.rest[16..18];
    assert b[40..44] == b[36..44][4..] == e.rest[32..36];
  }

  lemma HeaderAt84Fits()
    ensures Ehdr32Fits(HeaderAt84()) && Recognized32(WriteEhdr32(HeaderAt84()))
  {
    hide WriteEhdr32, Recognized32;
    var e := HeaderAt84();
    assert |e.rest| == 36;
    RecognizedByRest(e);
  }

  /** Where the four parts of the file lie. */
  lemma PartsOfElsewhere()
    ensures var file := TableElsewhere();
      && |file| == 120 && file[..52] == WriteEhdr32(HeaderAt84())
      && file[52..84] == WritePhdr32(NO_SEGMENT) && file[84..116] == WritePhdr32(SEGMENT)
  {
    HeaderAt84Fits();
    hide WriteEhdr32, WritePhdr32, HeaderAt84, ReadPhdr32, ReadEhdr32;
    Ehdr32ReadsBack(HeaderAt84());
    Phdr32ReadsBack(SEGMENT);
    Phdr32ReadsBack(NO_SEGMENT);
  }

  lemma HeaderOfElsewhere()
    ensures Header(ELF32, TableElsewhere()) == Some(HeaderAt84()) && |TableElsewhere()| == 120
  {
    hide WriteEhdr32, WritePhdr32, HeaderAt84, Recognized32, ReadEhdr32, TableElsewhere;
    assert HeaderAt84().phoff == 84 && HeaderAt84().phnum == 1 by { HeaderAt84Parts(); }
    HeaderAt84Fits();
    Ehdr32ReadsBack(HeaderAt84());
    PartsOfElsewhere();
  }

  lemma HeaderAt84Parts()
    ensures HeaderAt84().phoff == 84 && HeaderAt84().phnum == 1
  {
  }

  lemma OneEntry(b: seq<Byte>)
    requires |b| == 32
    ensures ELF32.ReadTable(b, 1) == [ReadPhdr32(b)]
  {
    hide ReadPhdr32;
    assert b[..32] == b && b[32..] == [];
    assert ELF32.ReadTable([], 0) == [];
  }

  lemma TablesOfElsewhere()
    ensures TableAt(ELF32, TableElsewhere(), 52, 1) == [NO_SEGMENT]
    ensures TableAt(ELF32, TableElsewhere(), 84, 1) == [SEGMENT]
  {
    hide WritePhdr32, ReadPhdr32, TableElsewhere, WriteEhdr32, Format.ReadTable;
    var file := TableElsewhere();
    PartsOfElsewhere();
    Phdr32ReadsBack(SEGMENT);
    Phdr32ReadsBack(NO_SEGMENT);
    assert ELF32.TableSize(1) == 32;
    OneEntry(file[52..84]);
    OneEntry(file[84..116]);
  }

  /** sstrip accepts the file, finds an unused entry behind the ELF header, writes it over the program header,
      and cuts off the four bytes it pointed to. */
  lemma SegmentIsLost()
    ensures var file := TableElsewhere();
      && Stripped(ELF32, file).Some?
      && !SameSegment(ELF32, file, Stripped(ELF32, file).value, HeaderAt84(), TableAt(ELF32, file, 84, 1)[0],
                      TableAt(ELF32, Stripped(ELF32, file).value, 84, 1)[0])
  {
    hide HeaderAt84, TableElsewhere, TableAt, Format.Valid, SameSegment, Committed, Header;
    var file, e := TableElsewhere(), HeaderAt84();
    HeaderAt84Parts();
    HeaderOfElsewhere();
    TablesOfElsewhere();
    Elf32IsValid();
    NeededByElsewhere(file, e);
    SignatureStays(ELF32, file, 116);
    var out := Stripped(ELF32, file).value;
    SegmentsKeptIffTold(ELF32, file, e, out);
    assert !Tells(ELF32, file, e, Trim(file, 116), SEGMENT, NO_SEGMENT);
  }

  lemma NeededByElsewhere(file: seq<Byte>, e: Ehdr)
    requires e.phoff == 84 && e.phnum == 1 && TableAt(ELF32, file, 52, 1) == [NO_SEGMENT]
    ensures SizeNeeded(ELF32, file, e) == 116
  {
    assert ELF32.TableSize(1) == 32;
    assert [NO_SEGMENT][..0] == [];
    assert Extent(116, [NO_SEGMENT]) == Extent(116, []) == 116;
    hide TableAt, Extent;
  }
}
