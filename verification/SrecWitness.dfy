/** Bytes in front of the first record: a run that is read back all the same, and one that is not. */
module SrecWitness {
  import opened Bytes
  import opened Options
  import opened Srec

  // ----- runs of calls -----

  function Starts(a: nat, n: nat): seq<Event>
    requires a + n <= TWO_TO_32
  {
    seq(n, i requires 0 <= i < n => Start(a + i))
  }

  function Writes(a: nat, data: seq<Byte>): seq<Event>
    requires a + |data| <= TWO_TO_32
  {
    seq(|data|, i requires 0 <= i < |data| => Write(a + i, data[i]))
  }

  /** The cells of consecutive bytes. */
  function Run(a: nat, data: seq<Byte>): seq<Cell>
    requires a + |data| <= TWO_TO_32
  {
    seq(|data|, i requires 0 <= i < |data| => Cell(a + i, data[i]))
  }

  lemma LogAppend(es: seq<Event>, e: Event)
    ensures LogOf(es + [e]) == Step(LogOf(es), e)
    ensures WritesOf(es + [e]) == WritesOf(es) + if e.Write? then [Cell(e.address, e.byte)] else []
  {
    assert (es + [e])[..|es|] == es;
    hide Step;
  }

  lemma LastStart(es: seq<Event>, a: nat, n: nat)
    requires a + n <= TWO_TO_32 && 0 < n
    ensures es + Starts(a, n) == (es + Starts(a, n - 1)) + [Start(a + n - 1)]
    ensures n == 1 ==> es + Starts(a, n - 1) == es
  {
  }

  /** Program starts that come next, one after the other, only move the current address. */
  lemma {:induction false} StartsAreAbsorbed(es: seq<Event>, a: nat, n: nat)
    requires a + n <= TWO_TO_32 && 0 < n && Next(LogOf(es).current) == a
    ensures LogOf(es + Starts(a, n)) == LogOf(es).(current := a + n - 1)
    ensures WritesOf(es + Starts(a, n)) == WritesOf(es)
    decreases n
  {
    hide LogOf, WritesOf, Starts;
    LastStart(es, a, n);
    LogAppend(es + Starts(a, n - 1), Start(a + n - 1));
    assert WritesOf(es) + [] == WritesOf(es);
    if n > 1 { StartsAreAbsorbed(es, a, n - 1); }
  }

  lemma LastWrite(es: seq<Event>, a: nat, data: seq<Byte>)
    requires a + |data| <= TWO_TO_32 && data != []
    ensures var n := |data| - 1;
      && es + Writes(a, data) == (es + Writes(a, data[..n])) + [Write(a + n, data[n])]
      && Run(a, data) == Run(a, data[..n]) + [Cell(a + n, data[n])]
  {
  }

  lemma NoWrites(es: seq<Event>, a: nat)
    requires a <= TWO_TO_32
    ensures es + Writes(a, []) == es && Run(a, []) == []
  {
  }

  /** Bytes that come next go where the bytes before them went. */
  lemma {:induction false} WritesFollow(es: seq<Event>, a: nat, data: seq<Byte>)
    requires a + |data| <= TWO_TO_32 && data != [] && Next(LogOf(es).current) == a
    ensures LogOf(es + Writes(a, data)) == Extended(LogOf(es), a, data)
    ensures WritesOf(es + Writes(a, data)) == WritesOf(es) + Run(a, data)
    decreases |data|
  {
    hide LogOf, WritesOf, Writes, Run, Step, Extended, Next;
    var n := |data| - 1;
    var front, e := es + Writes(a, data[..n]), Write(a + n, data[n]);
    LastWrite(es, a, data);
    LogAppend(front, e);
    ExtendedTwice(LogOf(es), a, data);
    if n > 0 {
      WritesFollow(es, a, data[..n]);
      Assoc(WritesOf(es), Run(a, data[..n]), [Cell(a + n, data[n])]);
    } else {
      assert data[..n] == [];
      NoWrites(es, a);
    }
  }

  function Extended(l: Log, a: nat, data: seq<Byte>): Log
    requires data != [] && a + |data| <= TWO_TO_32
  {
    if l.recs == [] then Log(l.raw + data, [], a + |data| - 1)
    else
      var n := |l.recs| - 1;
      Log(l.raw, l.recs[..n] + [Record(l.recs[n].address, l.recs[n].data + data)], a + |data| - 1)
  }

  lemma ExtendedTwice(l: Log, a: nat, data: seq<Byte>)
    requires a + |data| <= TWO_TO_32 && data != [] && Next(l.current) == a
    ensures var n := |data| - 1; var e := Write(a + n, data[n]);
      Step(if n == 0 then l else Extended(l, a, data[..n]), e) == Extended(l, a, data)
  {
    var n := |data| - 1;
    assert data[..n] + [data[n]] == data;
    if n == 0 {
      assert data == [data[0]];
    } else if l.recs == [] {
      assert (l.raw + data[..n]) + [data[n]] == l.raw + data;
    } else {
      var last := l.recs[|l.recs| - 1];
      assert (last.data + data[..n]) + [data[n]] == last.data + data;
    }
  }

  // ----- the run -----

  /** Program starts lead from 0 to FIRST, LEAD bytes follow before there is any record; program starts lead from
      BACK to the next address, and MORE bytes follow in the record at BACK. */
  const FIRST: nat := 134_086_656
  const LEAD: nat := 132_642_842
  const BACK: nat := 133_118
  const MORE: nat := 2024

  /** The first bytes are the length and the address of a record for all bytes, over and over. */
  const PATTERN: seq<Byte> := [0x02, 0x00, 0xE8, 0x07, 0x00, 0x00, 0xFE, 0x07]

  function Lead(n: nat): (s: seq<Byte>)
    ensures |s| == n
  {
    seq(n, i requires 0 <= i < n => PATTERN[i % 8])
  }

  function Turned(data: seq<Byte>): seq<Event>
    requires |data| == MORE
  {
    Starts(0, FIRST) + Writes(FIRST, Lead(LEAD)) + [Start(BACK)] + Starts(BACK + 1, FIRST + LEAD - BACK - 1)
    + Writes(FIRST + LEAD, data)
  }

  lemma TurnedLog(data: seq<Byte>)
    requires |data| == MORE
    ensures |Turned(data)| < TWO_TO_32
    ensures var l := LogOf(Turned(data)); l.raw == Lead(LEAD) && l.recs == [Record(BACK, data)]
    ensures WritesOf(Turned(data)) == Run(FIRST, Lead(LEAD) + data)
  {
    hide LogOf, WritesOf, Starts, Writes, Lead;
    var a := Starts(0, FIRST);
    var b := a + Writes(FIRST, Lead(LEAD));
    var c := b + [Start(BACK)];
    var d := c + Starts(BACK + 1, FIRST + LEAD - BACK - 1);
    NothingYet();
    StartsAreAbsorbed([], 0, FIRST);
    assert [] + a == a;
    WritesFollow(a, FIRST, Lead(LEAD));
    LogAppend(b, Start(BACK));
    StartsAreAbsorbed(c, BACK + 1, FIRST + LEAD - BACK - 1);
    WritesFollow(d, FIRST + LEAD, data);
    JoinRuns(FIRST, Lead(LEAD), data);
    assert [] + Lead(LEAD) == Lead(LEAD) && [] + data == data;
    TurnedLength(data);
  }

  lemma TurnedLength(data: seq<Byte>)
    requires |data| == MORE
    ensures |Turned(data)| == 2 * FIRST + 2 * LEAD - BACK + MORE
  {
  }

  lemma NothingYet()
    ensures LogOf([]) == BEGIN && WritesOf([]) == []
  {
  }

  lemma JoinRuns(a: nat, x: seq<Byte>, y: seq<Byte>)
    requires a + |x| + |y| <= TWO_TO_32
    ensures [] + Run(a, x) + Run(a + |x|, y) == Run(a, x + y)
  {
  }

  // ----- the bytes tell another story -----

  /** The two headers, for the bytes behind BACK and for all bytes. */
  lemma Headers()
    ensures Le32(LEAD + MORE) + Le32(FIRST) == PATTERN
    ensures Le32(MORE) + Le32(BACK) == PATTERN[2..] + PATTERN[..2]
  {
    assert Le32(LEAD + MORE) == [0x02, 0x00, 0xE8, 0x07] && Le32(FIRST) == [0x00, 0x00, 0xFE, 0x07];
    assert Le32(MORE) == [0xE8, 0x07, 0x00, 0x00] && Le32(BACK) == [0xFE, 0x07, 0x02, 0x00];
  }

  lemma Turn(j: nat)
    requires j < 8
    ensures (PATTERN[2..] + PATTERN[..2])[j] == PATTERN[(j + 2) % 8]
  {
  }

  lemma LeadAt(i: nat)
    requires i < LEAD
    ensures Lead(LEAD)[i] == PATTERN[i % 8]
  {
  }

  lemma JoinAt<T>(a: seq<T>, b: seq<T>, i: nat)
    requires i < |a| + |b|
    ensures (a + b)[i] == if i < |a| then a[i] else b[i - |a|]
  {
  }

  lemma HeaderAt(i: nat)
    requires i < LEAD + 8
    ensures (Lead(LEAD) + (PATTERN[2..] + PATTERN[..2]))[i] == (PATTERN + Lead(LEAD))[i]
  {
    hide Lead;
    var lead, turned := Lead(LEAD), PATTERN[2..] + PATTERN[..2];
    JoinAt(lead, turned, i);
    JoinAt(PATTERN, lead, i);
    if i < LEAD { LeadAt(i); } else { Turn(i - LEAD); }
    if i >= 8 {
      LeadAt(i - 8);
      assert (i - 8) % 8 == i % 8;
    }
  }

  /** The header for all bytes in front of the leading ones reads like the header of the record behind them. */
  lemma HeaderMoves()
    ensures Lead(LEAD) + (PATTERN[2..] + PATTERN[..2]) == PATTERN + Lead(LEAD)
  {
    hide Lead;
    forall i | 0 <= i < LEAD + 8
      ensures (Lead(LEAD) + (PATTERN[2..] + PATTERN[..2]))[i] == (PATTERN + Lead(LEAD))[i]
    {
      HeaderAt(i);
    }
    assert |Lead(LEAD) + (PATTERN[2..] + PATTERN[..2])| == |PATTERN + Lead(LEAD)| == LEAD + 8;
  }

  function Part(n: nat): nat
    requires n <= 8
  {
    if n == 0 then 0 else Part(n - 1) + PATTERN[n - 1]
  }

  lemma PatternSum()
    ensures Part(8) == 502 && Part(2) == 2
  {
    assert Part(2) == Part(1) + PATTERN[1];
    assert Part(4) == Part(3) + PATTERN[3];
    assert Part(6) == Part(5) + PATTERN[5];
    assert Part(8) == Part(7) + PATTERN[7];
  }

  lemma PartStep(n: nat)
    requires n > 0
    ensures 502 * ((n - 1) / 8) + Part((n - 1) % 8) + PATTERN[(n - 1) % 8] == 502 * (n / 8) + Part(n % 8)
  {
    PatternSum();
    if n % 8 == 0 {
      assert (n - 1) / 8 == n / 8 - 1 && (n - 1) % 8 == 7;
      assert Part(8) == Part(7) + PATTERN[7];
    } else {
      assert (n - 1) / 8 == n / 8 && (n - 1) % 8 == n % 8 - 1;
      assert Part(n % 8) == Part(n % 8 - 1) + PATTERN[n % 8 - 1];
    }
  }

  lemma {:induction false} LeadSum(n: nat)
    ensures Sum(Lead(n)) == 502 * (n / 8) + Part(n % 8)
  {
    if n > 0 {
      assert Lead(n)[..n - 1] == Lead(n - 1) && Lead(n)[n - 1] == PATTERN[(n - 1) % 8];
      hide Part, Lead;
      LeadSum(n - 1);
      PartStep(n);
    }
  }

  lemma {:induction false} SumJoin(a: seq<Byte>, b: seq<Byte>)
    ensures Sum(a + b) == Sum(a) + Sum(b)
  {
    if b == [] {
      assert a + b == a;
    } else {
      var n := |b| - 1;
      assert (a + b)[..|a| + n] == a + b[..n];
      SumJoin(a, b[..n]);
    }
  }

  /** Both records have the same checksum. */
  lemma SameCheck(data: seq<Byte>)
    requires |data| == MORE
    ensures CheckWord(Record(BACK, data)) == CheckWord(Record(FIRST, Lead(LEAD) + data))
  {
    LeadSum(LEAD);
    PatternSum();
    SumJoin(Lead(LEAD), data);
    assert LEAD / 8 == 16_580_355 && LEAD % 8 == 2;
    assert Sum(Lead(LEAD)) == 502 * 16_580_355 + 2;
    hide Sum, Lead, Part;
    var x := MORE + BACK + Sum(data);
    assert LEAD + MORE + FIRST + (502 * 16_580_355 + 2) + Sum(data) == x + 2 * TWO_TO_32;
    SameModulo(x);
  }

  lemma SameModulo(x: nat)
    ensures (0 - x) % TWO_TO_32 == (0 - (x + 2 * TWO_TO_32)) % TWO_TO_32
  {
  }

  /** The bytes before the record and the record are, byte for byte, one record with all bytes. */
  lemma BodyIsOneRecord(data: seq<Byte>)
    requires |data| == MORE
    ensures Lead(LEAD) + Encode(Record(BACK, data)) == Encode(Record(FIRST, Lead(LEAD) + data))
  {
    var r, whole := Record(BACK, data), Record(FIRST, Lead(LEAD) + data);
    Headers();
    HeaderMoves();
    SameCheck(data);
    hide Lead, CheckWord, Le32;
    var lead, check := Lead(LEAD), Le32(CheckWord(r));
    assert Head(r) == PATTERN[2..] + PATTERN[..2] && Head(whole) == PATTERN;
    assert lead + (Head(r) + data + check) == (lead + Head(r)) + data + check;
    assert (PATTERN + lead) + data + check == PATTERN + (lead + data) + check;
  }

  lemma {:induction false} CellsAreRun(r: Record)
    requires r.address + |r.data| <= TWO_TO_32
    ensures Cells(r) == Run(r.address, r.data)
    decreases |r.data|
  {
    if r.data != [] {
      var n := |r.data| - 1;
      CellsAreRun(Record(r.address, r.data[..n]));
      assert Run(r.address, r.data) == Run(r.address, r.data[..n]) + [Cell(r.address + n, r.data[n])];
    }
  }

  lemma OneRecord(r: Record)
    requires Fits(r)
    ensures EncodeAll([r]) == Encode(r) && Contents([r]) == Cells(r)
    ensures Parse(Encode(r)) == Some([r])
  {
    hide Encode, Cells, Parse;
    assert [r][..0] == [];
    assert EncodeAll([r]) == EncodeAll([r][..0]) + Encode(r) == Encode(r);
    assert Contents([r]) == Contents([r][..0]) + Cells(r) == Cells(r);
    ParseOfEncodeAll([r]);
  }

  /** A run that puts bytes before the first record and right behind program starts, and is read back all the
      same: the bytes happen to spell a header, and the checksum fits. */
  lemma UncleanIsReproduced(data: seq<Byte>)
    requires |data| == MORE
    ensures var es := Turned(data);
      |es| < TWO_TO_32 && LogOf(es).raw != [] && !Clean(es) && Reproduces(Body(es), WritesOf(es))
  {
    var es, whole := Turned(data), Record(FIRST, Lead(LEAD) + data);
    assert BehindStart(es, FIRST);
    hide Lead, Encode, Cells, Parse, Turned, LogOf, WritesOf, Contents, EncodeAll, Run;
    TurnedLog(data);
    BodyIsOneRecord(data);
    OneRecord(Record(BACK, data));
    OneRecord(whole);
    CellsAreRun(whole);
  }

  /** The usual case: a program start at address 0 and one byte behind it give a file of one byte. */
  lemma OneByteIsLost(b: Byte)
    ensures var es := [Start(0), Write(1, b)];
      LogOf(es).raw != [] && !Clean(es) && !Reproduces(Body(es), WritesOf(es))
  {
    var es := [Start(0), Write(1, b)];
    NothingYet();
    LogAppend([], Start(0));
    LogAppend([Start(0)], Write(1, b));
    assert [] + [Start(0)] == [Start(0)] && [Start(0)] + [Write(1, b)] == es;
    assert BehindStart(es, 1);
    assert Body(es) == [b] + [] == [b];
    assert ParseOne([b]) == None;
  }
}
