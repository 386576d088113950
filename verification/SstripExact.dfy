/** Which files sstrip cuts, and where, told by the bytes of the file alone. */
module SstripExact {
  import opened Bytes
  import opened Elf
  import opened Options
  import opened Sstrip

  /** Entry i of a table that begins at a place in the file. */
  function EntryAt(fmt: Format, file: seq<Byte>, at: nat, i: nat): Phdr
    requires at + (i + 1) * fmt.phdrSize <= |file|
  {
    fmt.readPhdr(file[at + i * fmt.phdrSize..at + (i + 1) * fmt.phdrSize])
  }

  lemma {:induction false} ReadTableEntry(fmt: Format, b: seq<Byte>, n: nat, i: nat)
    requires i < n && |b| == n * fmt.phdrSize
    ensures (i + 1) * fmt.phdrSize <= n * fmt.phdrSize
    ensures fmt.ReadTable(b, n)[i] == EntryAt(fmt, b, 0, i)
    decreases n
  {
    var w := fmt.phdrSize;
    assert n * w == w + (n - 1) * w;
    Products(w, i + 1, n);
    if i > 0 {
      ReadTableEntry(fmt, b[w..], n - 1, i - 1);
      assert i * w == w + (i - 1) * w && (i + 1) * w == w + i * w;
      assert b[w..][(i - 1) * w..i * w] == b[i * w..(i + 1) * w];
    } else {
      assert 0 * w == 0 && 1 * w == w;
    }
  }

  lemma Products(w: nat, i: nat, n: nat)
    requires i <= n
    ensures i * w <= n * w
  {
  }

  lemma TableEntry(fmt: Format, file: seq<Byte>, at: nat, n: nat, i: nat)
    requires i < n && at + n * fmt.phdrSize <= |file|
    ensures (i + 1) * fmt.phdrSize <= n * fmt.phdrSize
    ensures TableAt(fmt, file, at, n)[i] == EntryAt(fmt, file, at, i)
  {
    hide Format.ReadTable;
    var w := fmt.phdrSize;
    var b := file[at..at + n * w];
    ReadTableEntry(fmt, b, n, i);
    SliceOfSlice(file, at, n * w, i * w, (i + 1) * w);
    assert at + n * w <= |file| && fmt.TableSize(n) == n * w;
    assert EntryAt(fmt, b, 0, i) == EntryAt(fmt, file, at, i);
  }

  lemma SliceOfSlice(file: seq<Byte>, at: nat, size: nat, from: nat, to: nat)
    requires at + size <= |file| && from <= to <= size
    ensures file[at..at + size][from..to] == file[at + from..at + to]
  {
    var a, b := file[at..at + size][from..to], file[at + from..at + to];
    assert forall k :: 0 <= k < |b| ==> a[k] == b[k];
  }

  // ----- how far the headers reach -----

  /** The size to keep is not larger than what needs it. */
  lemma {:induction false} ExtentIsReached(base: nat, ps: seq<Phdr>)
    ensures Extent(base, ps) == base
         || exists i :: 0 <= i < |ps| && ps[i].kind != 0 && Extent(base, ps) == ps[i].offset + ps[i].filesz
    decreases |ps|
  {
    if ps != [] {
      var n := |ps| - 1;
      ExtentIsReached(base, ps[..n]);
      var r := Extent(base, ps[..n]);
      if ps[n].kind != 0 && r < ps[n].offset + ps[n].filesz {
        assert Extent(base, ps) == ps[n].offset + ps[n].filesz;
      } else if r != base {
        var i :| 0 <= i < n && ps[..n][i].kind != 0 && r == ps[..n][i].offset + ps[..n][i].filesz;
        assert ps[i] == ps[..n][i];
      }
    }
  }

  predicate Readable(fmt: Format, file: seq<Byte>, e: Ehdr) {
    fmt.ehdrSize + e.phnum * fmt.phdrSize <= |file|
  }

  /** Some header, or an entry in use, lies or ends behind place k. */
  ghost predicate Covered(fmt: Format, file: seq<Byte>, e: Ehdr, k: nat)
    requires Readable(fmt, file, e)
  {
    || k < fmt.ehdrSize
    || k < e.phoff + e.phnum * fmt.phdrSize
    || exists i :: 0 <= i < e.phnum && Ends(fmt, file, e, i, k)
  }

  /** Entry i is in use and ends behind place k. */
  predicate Ends(fmt: Format, file: seq<Byte>, e: Ehdr, i: nat, k: nat)
    requires Readable(fmt, file, e) && i < e.phnum
  {
    TableEntry(fmt, file, fmt.ehdrSize, e.phnum, i);
    var p := EntryAt(fmt, file, fmt.ehdrSize, i);
    p.kind != 0 && k < p.offset + p.filesz
  }

  lemma CoveredIff(fmt: Format, file: seq<Byte>, e: Ehdr, k: nat)
    requires Readable(fmt, file, e)
    ensures Covered(fmt, file, e, k) <==> k < SizeNeeded(fmt, file, e)
  {
    hide Format.ReadTable, EntryAt, Extent, TableAt;
    var ps := TableAt(fmt, file, fmt.ehdrSize, e.phnum);
    forall i | 0 <= i < e.phnum
      ensures Ends(fmt, file, e, i, k) <==> ps[i].kind != 0 && k < ps[i].offset + ps[i].filesz
    {
      TableEntry(fmt, file, fmt.ehdrSize, e.phnum, i);
    }
    ExtentIsReached(Max(e.phoff + fmt.TableSize(e.phnum), fmt.ehdrSize), ps);
  }

  /** A file is cut if and only if it begins with an ELF header it knows, has a program header table, and is long
      enough for the table, read and written, and for every segment in use. */
  lemma StrippedIff(fmt: Format, file: seq<Byte>)
    requires fmt.Valid()
    ensures Stripped(fmt, file).Some? <==>
      && fmt.ehdrSize <= |file| && fmt.recognized(file[..fmt.ehdrSize])
      && var e := fmt.readEhdr(file[..fmt.ehdrSize]);
      && e.phoff > 0 && e.phnum > 0 && Readable(fmt, file, e)
      && forall k: nat :: Covered(fmt, file, e, k) ==> k < |file|
  {
    hide SizeNeeded, Committed, AdjustAll, TableAt, Format.Valid, Covered;
    if fmt.ehdrSize <= |file| && fmt.recognized(file[..fmt.ehdrSize]) {
      var e := fmt.readEhdr(file[..fmt.ehdrSize]);
      if e.phoff > 0 && e.phnum > 0 && Readable(fmt, file, e) {
        var size := SizeNeeded(fmt, file, e);
        forall k: nat ensures Covered(fmt, file, e, k) <==> k < size {
          CoveredIff(fmt, file, e, k);
        }
        if size <= |file| {
          SignatureStays(fmt, file, size);
        } else {
          assert Covered(fmt, file, e, size - 1);
        }
      }
    }
  }

  // ----- where the file ends -----

  /** n is one past the last byte that is not zero among those in front of an end of something needed. */
  ghost predicate LastNeeded(fmt: Format, file: seq<Byte>, e: Ehdr, n: nat)
    requires Readable(fmt, file, e)
  {
    && 0 < n <= |file| && file[n - 1] != 0 && Covered(fmt, file, e, n - 1)
    && forall k :: n <= k < |file| && Covered(fmt, file, e, k) ==> file[k] == 0
  }

  /** An entry whose start and end are cut at n. */
  predicate CutAt(p: Phdr, q: Phdr, n: nat) {
    && q.offset == Least(p.offset, n) && q.offset + q.filesz == Least(p.offset + p.filesz, n)
    && q.kind == p.kind && q.memsz == p.memsz && q.rest == p.rest
  }

  function Least(a: nat, b: nat): nat { if a < b then a else b }

  /** An ELF header that has lost a section table which begins at n or behind. */
  predicate Sectionless(e: Ehdr, f: Ehdr, n: nat) {
    && f.phoff == e.phoff && f.phnum == e.phnum && f.rest == e.rest
    && if e.shoff < n then
         f.shoff == e.shoff && f.shnum == e.shnum && f.shentsize == e.shentsize && f.shstrndx == e.shstrndx
       else
         f.shoff == 0 && f.shnum == 0 && f.shentsize == 0 && f.shstrndx == 0
  }

  /** The file cut at n: it goes on to the end of the table; the table at e_phoff is the one behind the ELF header,
      entry by entry, and nothing else has changed. */
  ghost predicate CutFile(fmt: Format, file: seq<Byte>, e: Ehdr, n: nat, out: seq<Byte>)
    requires Readable(fmt, file, e) && fmt.ehdrSize <= |file|
  {
    var end := e.phoff + e.phnum * fmt.phdrSize;
    && |out| == (if n < end then end else n) <= |file|
    && (fmt.ehdrSize <= e.phoff ==> Sectionless(e, fmt.readEhdr(out[..fmt.ehdrSize]), n))
    && (forall i :: 0 <= i < e.phnum ==> EntryIsCut(fmt, file, e, n, out, i))
    && forall k :: fmt.ehdrSize <= k < |out| && !(e.phoff <= k < end) ==> out[k] == file[k]
  }

  predicate EntryIsCut(fmt: Format, file: seq<Byte>, e: Ehdr, n: nat, out: seq<Byte>, i: nat)
    requires i < e.phnum && Readable(fmt, file, e) && e.phoff + e.phnum * fmt.phdrSize <= |out|
  {
    TableEntry(fmt, file, fmt.ehdrSize, e.phnum, i);
    CutAt(EntryAt(fmt, file, fmt.ehdrSize, i), EntryAt(fmt, out, e.phoff, i), n)
  }

  lemma TrimIsLastNeeded(fmt: Format, file: seq<Byte>, e: Ehdr)
    requires fmt.Valid() && Header(fmt, file) == Some(e) && SizeNeeded(fmt, file, e) <= |file|
    ensures Readable(fmt, file, e) && LastNeeded(fmt, file, e, Trim(file, SizeNeeded(fmt, file, e)))
  {
    hide Format.Valid, Trim, Covered, SizeNeeded;
    var size := SizeNeeded(fmt, file, e);
    SignatureStays(fmt, file, size);
    assert Readable(fmt, file, e);
    forall k: nat ensures Covered(fmt, file, e, k) <==> k < size {
      CoveredIff(fmt, file, e, k);
    }
    assert Blank(file, Trim(file, size), size);
  }

  lemma EntriesAreCut(fmt: Format, file: seq<Byte>, e: Ehdr, n: nat, out: seq<Byte>, i: nat)
    requires i < e.phnum && Readable(fmt, file, e) && e.phoff + e.phnum * fmt.phdrSize <= |out|
    requires TableAt(fmt, out, e.phoff, e.phnum) == AdjustAll(TableAt(fmt, file, fmt.ehdrSize, e.phnum), n)
    ensures EntryIsCut(fmt, file, e, n, out, i)
  {
    hide TableAt, EntryAt;
    TableEntry(fmt, file, fmt.ehdrSize, e.phnum, i);
    TableEntry(fmt, out, e.phoff, e.phnum, i);
  }

  /** A file that is cut is cut behind the last byte needed that is not zero, and every entry with it. */
  lemma StrippedIsCut(fmt: Format, file: seq<Byte>, e: Ehdr, out: seq<Byte>)
    requires fmt.Valid() && Header(fmt, file) == Some(e) && Stripped(fmt, file) == Some(out)
    ensures Readable(fmt, file, e)
    ensures exists n :: LastNeeded(fmt, file, e, n)
    ensures forall n :: LastNeeded(fmt, file, e, n) ==> CutFile(fmt, file, e, n, out)
  {
    hide Format.Valid, Stripped, TableAt, AdjustAll, LastNeeded, Covered, EntryIsCut, Trim, EntryAt;
    StrippedParts(fmt, file, e, out);
    TrimIsLastNeeded(fmt, file, e);
    var n := Trim(file, SizeNeeded(fmt, file, e));
    forall i | 0 <= i < e.phnum ensures EntryIsCut(fmt, file, e, n, out, i) {
      EntriesAreCut(fmt, file, e, n, out, i);
    }
    assert CutFile(fmt, file, e, n, out);
    forall m | LastNeeded(fmt, file, e, m) ensures m == n {
      LastNeededIsUnique(fmt, file, e, m, n);
    }
  }

  lemma LastNeededIsUnique(fmt: Format, file: seq<Byte>, e: Ehdr, m: nat, n: nat)
    requires Readable(fmt, file, e) && LastNeeded(fmt, file, e, m) && LastNeeded(fmt, file, e, n)
    ensures m == n
  {
    hide Covered;
  }
}
