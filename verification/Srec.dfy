/** Binary files made of address records, written with the lengths filled in afterwards. */
module Srec {

  import opened Bytes
  import opened Options

  // ----- the format -----

  /** LENGTH, ADDRESS, DATA, CHECKSUM. */
  datatype Record = Record(address: Word32, data: seq<Byte>)

  function Sum(s: seq<Byte>): nat {
    if s == [] then 0 else Sum(s[..|s| - 1]) + s[|s| - 1]
  }

  /** What brings the fields and the bytes of a record to zero modulo 2^32. */
  function CheckWord(r: Record): Word32 {
    (0 - (|r.data| + r.address + Sum(r.data))) % TWO_TO_32
  }

  predicate Fits(r: Record) {
    |r.data| < TWO_TO_32
  }

  function Head(r: Record): seq<Byte>
    requires Fits(r)
  {
    Le32(|r.data|) + Le32(r.address)
  }

  function Encode(r: Record): seq<Byte>
    requires Fits(r)
  {
    Head(r) + r.data + Le32(CheckWord(r))
  }

  predicate AllFit(recs: seq<Record>) {
    forall i :: 0 <= i < |recs| ==> Fits(recs[i])
  }

  function EncodeAll(recs: seq<Record>): seq<Byte>
    requires AllFit(recs)
  {
    if recs == [] then [] else EncodeAll(recs[..|recs| - 1]) + Encode(recs[|recs| - 1])
  }

  predicate Balanced(r: Record, check: Word32) {
    (|r.data| + r.address + Sum(r.data) + check) % TWO_TO_32 == 0
  }

  /** One record off the front, if the lengths and the checksum are right. */
  function ParseOne(s: seq<Byte>): (r: Option<Record>)
    ensures r.Some? ==> 12 + |r.value.data| <= |s| && Fits(r.value)
  {
    if |s| < 12 then None
    else
      var n := FromLe32(s[..4]);
      if |s| < 12 + n then None
      else
        var r := Record(FromLe32(s[4..8]), s[8..8 + n]);
        if Balanced(r, FromLe32(s[8 + n..12 + n])) then Some(r) else None
  }

  function Parse(s: seq<Byte>): (r: Option<seq<Record>>)
    decreases |s|
  {
    if s == [] then Some([])
    else
      var first := ParseOne(s);
      if first.None? then None
      else
        var rest := Parse(s[12 + |first.value.data|..]);
        if rest.None? then None else Some([first.value] + rest.value)
  }

  lemma CheckWordBalances(r: Record)
    ensures Balanced(r, CheckWord(r))
  {
    Negated(|r.data| + r.address + Sum(r.data));
  }

  lemma Negated(n: nat)
    ensures (n + (0 - n) % TWO_TO_32) % TWO_TO_32 == 0
  {
  }

  lemma ParseOneOfEncode(r: Record, rest: seq<Byte>)
    requires Fits(r)
    ensures ParseOne(Encode(r) + rest) == Some(r)
    ensures (Encode(r) + rest)[12 + |r.data|..] == rest
  {
    var s, n := Encode(r) + rest, |r.data|;
    assert s[..4] == Le32(n) && s[4..8] == Le32(r.address);
    assert s[8..8 + n] == r.data && s[8 + n..12 + n] == Le32(CheckWord(r));
    FromLe32OfLe32(n);
    FromLe32OfLe32(r.address);
    FromLe32OfLe32(CheckWord(r));
    CheckWordBalances(r);
  }

  lemma Assoc<T>(a: seq<T>, b: seq<T>, c: seq<T>)
    ensures a + b + c == a + (b + c)
  {
  }

  lemma {:induction false} EncodeAllFront(recs: seq<Record>)
    requires AllFit(recs) && recs != []
    ensures EncodeAll(recs) == Encode(recs[0]) + EncodeAll(recs[1..])
  {
    var n := |recs| - 1;
    if n == 0 {
      assert recs[..0] == [] && recs[1..] == [];
    } else {
      hide Encode;
      EncodeAllFront(recs[..n]);
      assert recs[..n][1..] == recs[1..][..n - 1] && recs[1..][n - 1] == recs[n];
      Assoc(Encode(recs[0]), EncodeAll(recs[1..][..n - 1]), Encode(recs[n]));
    }
  }

  lemma ParseStep(s: seq<Byte>, r: Record, rest: seq<Byte>, recs: seq<Record>)
    requires ParseOne(s) == Some(r) && s[12 + |r.data|..] == rest && Parse(rest) == Some(recs)
    ensures Parse(s) == Some([r] + recs)
  {
    hide ParseOne;
    assert s != [];
  }

  /** What was encoded is what is read. */
  lemma {:induction false} ParseOfEncodeAll(recs: seq<Record>)
    requires AllFit(recs)
    ensures Parse(EncodeAll(recs)) == Some(recs)
    decreases |recs|
  {
    hide ParseOne, Encode;
    if recs != [] {
      hide Parse, EncodeAll;
      var rest := EncodeAll(recs[1..]);
      EncodeAllFront(recs);
      ParseOneOfEncode(recs[0], rest);
      ParseOfEncodeAll(recs[1..]);
      ParseStep(EncodeAll(recs), recs[0], rest, recs[1..]);
      assert recs == [recs[0]] + recs[1..];
    }
  }

  // ----- what the calls mean -----

  /** binRecOutByte and binRecOutProgramStart. */
  datatype Event = Write(address: Word32, byte: Byte) | Start(address: Word32)

  function Next(a: Word32): Word32 {
    (a + 1) % TWO_TO_32
  }

  /** Bytes outside any record, the records so far, and AddressCurrent. */
  datatype Log = Log(raw: seq<Byte>, recs: seq<Record>, current: Word32)

  function Step(l: Log, e: Event): Log {
    match e
    case Start(a) => Log(l.raw, if a != Next(l.current) then l.recs + [Record(a, [])] else l.recs, a)
    case Write(a, b) =>
      if a != Next(l.current) then Log(l.raw, l.recs + [Record(a, [b])], a)
      else if l.recs == [] then Log(l.raw + [b], [], a)
      else
        var last := l.recs[|l.recs| - 1];
        Log(l.raw, l.recs[..|l.recs| - 1] + [Record(last.address, last.data + [b])], a)
  }

  /** AddressCurrent begins at the highest address, so that address 0 seems to follow on. */
  const BEGIN := Log([], [], 0xFFFF_FFFF)

  function LogOf(events: seq<Event>): (l: Log)
    ensures |l.raw| + |l.recs| <= |events|
    ensures forall i :: 0 <= i < |l.recs| ==> |l.recs[i].data| <= |events|
  {
    if events == [] then BEGIN else Step(LogOf(events[..|events| - 1]), events[|events| - 1])
  }

  // ----- what a reader gets -----

  datatype Cell = Cell(address: Word32, byte: Byte)

  function After(a: Word32, n: nat): Word32 {
    (a + n) % TWO_TO_32
  }

  function Cells(r: Record): (c: seq<Cell>)
    ensures |c| == |r.data|
    decreases |r.data|
  {
    if r.data == [] then []
    else
      var n := |r.data| - 1;
      Cells(Record(r.address, r.data[..n])) + [Cell(After(r.address, n), r.data[n])]
  }

  function Contents(recs: seq<Record>): seq<Cell> {
    if recs == [] then [] else Contents(recs[..|recs| - 1]) + Cells(recs[|recs| - 1])
  }

  function WritesOf(events: seq<Event>): seq<Cell> {
    if events == [] then []
    else
      var e := events[|events| - 1];
      WritesOf(events[..|events| - 1]) + if e.Write? then [Cell(e.address, e.byte)] else []
  }

  /** The bytes behind the tag give back exactly the written cells, in order. */
  predicate Reproduces(body: seq<Byte>, cells: seq<Cell>) {
    Parse(body).Some? && Contents(Parse(body).value) == cells
  }

  predicate Follows(before: Event, e: Event) {
    e.address == Next(before.address)
  }

  /** The event before event i; address 0xFFFFFFFF counts as started before the first. */
  function Before(events: seq<Event>, i: nat): Event
    requires i < |events|
  {
    if i == 0 then Start(0xFFFF_FFFF) else events[i - 1]
  }

  /** Event i writes a byte right behind the address of a program start. */
  predicate BehindStart(events: seq<Event>, i: nat)
    requires i < |events|
  {
    events[i].Write? && Before(events, i).Start? && Follows(Before(events, i), events[i])
  }

  predicate Clean(events: seq<Event>) {
    forall i :: 0 <= i < |events| ==> !BehindStart(events, i)
  }

  /** Where the next byte of the last record belongs. */
  predicate Steady(l: Log) {
    l.recs != [] && var last := l.recs[|l.recs| - 1]; After(last.address, |last.data|) == Next(l.current)
  }

  lemma ContentsAppend(recs: seq<Record>, r: Record)
    ensures Contents(recs + [r]) == Contents(recs) + Cells(r)
  {
    assert (recs + [r])[..|recs|] == recs;
  }

  lemma StepWrites(l: Log, e: Event)
    requires l.raw == [] && e.Write? && (e.address == Next(l.current) ==> Steady(l))
    ensures var m := Step(l, e);
      m.raw == [] && Steady(m) && Contents(m.recs) == Contents(l.recs) + [Cell(e.address, e.byte)]
  {
    hide Contents;
    if e.address != Next(l.current) {
      ContentsAppend(l.recs, Record(e.address, [e.byte]));
      assert Cells(Record(e.address, [])) == [];
      assert Cells(Record(e.address, [e.byte])) == [Cell(After(e.address, 0), e.byte)];
      AfterNext(e.address, 0);
    } else {
      var n := |l.recs| - 1;
      var last := l.recs[n];
      assert (last.data + [e.byte])[..|last.data|] == last.data;
      ContentsAppend(l.recs[..n], last);
      ContentsAppend(l.recs[..n], Record(last.address, last.data + [e.byte]));
      assert l.recs[..n] + [last] == l.recs;
      AfterNext(last.address, |last.data|);
    }
  }

  lemma AfterNext(a: Word32, n: nat)
    ensures After(a, n + 1) == Next(After(a, n))
    ensures After(a, 0) == a && After(a, 1) == Next(a)
  {
  }

  lemma StepStarts(l: Log, e: Event)
    requires l.raw == [] && e.Start?
    ensures var m := Step(l, e); m.raw == [] && Contents(m.recs) == Contents(l.recs)
  {
    ContentsAppend(l.recs, Record(e.address, []));
  }

  lemma {:induction false} CurrentIsLast(events: seq<Event>)
    ensures LogOf(events).current == if events == [] then 0xFFFF_FFFF else events[|events| - 1].address
  {
  }

  lemma BehindStartPrefix(events: seq<Event>, n: nat, i: nat)
    requires i < n <= |events|
    ensures BehindStart(events[..n], i) <==> BehindStart(events, i)
  {
  }

  lemma CleanPrefix(events: seq<Event>, n: nat)
    requires Clean(events) && n <= |events|
    ensures Clean(events[..n])
  {
    forall i | 0 <= i < n ensures !BehindStart(events[..n], i) {
      BehindStartPrefix(events, n, i);
    }
  }

  lemma {:induction false} CleanLog(events: seq<Event>)
    requires Clean(events)
    ensures var l := LogOf(events);
      l.raw == [] && Contents(l.recs) == WritesOf(events) && (events != [] && events[|events| - 1].Write? ==> Steady(l))
  {
    if events != [] {
      var n := |events| - 1;
      CleanPrefix(events, n);
      CleanLog(events[..n]);
      CurrentIsLast(events[..n]);
      if events[n].Write? {
        if events[n].address == Next(LogOf(events[..n]).current) {
          assert !BehindStart(events, n);
        }
        StepWrites(LogOf(events[..n]), events[n]);
      } else {
        StepStarts(LogOf(events[..n]), events[n]);
      }
    }
  }

  /** The file body for a sequence of calls. */
  function Body(events: seq<Event>): seq<Byte>
    requires |events| < TWO_TO_32
  {
    LogOf(events).raw + EncodeAll(LogOf(events).recs)
  }

  lemma BodyIsRead(events: seq<Event>)
    requires |events| < TWO_TO_32 && LogOf(events).raw == []
    ensures Parse(Body(events)) == Some(LogOf(events).recs)
  {
    hide Parse, Encode, EncodeAll;
    var recs := LogOf(events).recs;
    ParseOfEncodeAll(recs);
    assert [] + EncodeAll(recs) == EncodeAll(recs);
  }

  /** Every clean sequence of calls can be read back exactly. */
  lemma CleanIsReproduced(events: seq<Event>)
    requires |events| < TWO_TO_32 && Clean(events)
    ensures Reproduces(Body(events), WritesOf(events))
  {
    hide Parse, Body, LogOf, Contents, WritesOf, Clean;
    CleanLog(events);
    BodyIsRead(events);
  }

  // ----- address zero -----

  predicate WritesOnly(events: seq<Event>) {
    forall i :: 0 <= i < |events| ==> events[i].Write?
  }

  predicate Joined(c: seq<Cell>, i: nat)
    requires 0 < i < |c|
  {
    c[i].address == Next(c[i - 1].address)
  }

  /** How often the next cell is not right behind the one before. */
  function Breaks(c: seq<Cell>): nat {
    if |c| <= 1 then 0
    else Breaks(c[..|c| - 1]) + if Joined(c, |c| - 1) then 0 else 1
  }

  lemma BreaksAppend(c: seq<Cell>, x: Cell)
    requires c != []
    ensures Breaks(c + [x]) == Breaks(c) + if x.address == Next(c[|c| - 1].address) then 0 else 1
  {
    assert (c + [x])[..|c|] == c;
  }

  lemma {:induction false} BreaksOfCells(c: seq<Cell>, r: Record)
    ensures Breaks(c + Cells(r)) <= Breaks(c) + if c != [] && r.data != [] then 1 else 0
    ensures r.data != [] ==> Cells(r)[|r.data| - 1].address == After(r.address, |r.data| - 1)
    decreases |r.data|
  {
    if r.data == [] {
      assert c + Cells(r) == c;
    } else {
      var n := |r.data| - 1;
      var front := Record(r.address, r.data[..n]);
      var x := Cell(After(r.address, n), r.data[n]);
      BreaksOfCells(c, front);
      assert c + Cells(r) == c + Cells(front) + [x];
      if c + Cells(front) != [] {
        BreaksAppend(c + Cells(front), x);
      }
      if n > 0 {
        AfterNext(r.address, n - 1);
        assert (c + Cells(front))[|c| + n - 1] == Cells(front)[n - 1];
      }
    }
  }

  /** A record holds one run of addresses, so there are fewer breaks than records. */
  lemma {:induction false} BreaksOfContents(recs: seq<Record>)
    requires Contents(recs) != []
    ensures Breaks(Contents(recs)) < |recs|
  {
    var n := |recs| - 1;
    BreaksOfCells(Contents(recs[..n]), recs[n]);
    if Contents(recs[..n]) != [] {
      BreaksOfContents(recs[..n]);
    }
  }

  lemma {:induction false} LengthOfParsed(s: seq<Byte>)
    requires Parse(s).Some?
    ensures |s| == |Contents(Parse(s).value)| + 12 * |Parse(s).value|
    decreases |s|
  {
    if s != [] {
      var r := ParseOne(s).value;
      var rest := s[12 + |r.data|..];
      LengthOfParsed(rest);
      ContentsFront(r, Parse(rest).value);
    }
  }

  lemma {:induction false} ContentsFront(r: Record, recs: seq<Record>)
    ensures Contents([r] + recs) == Cells(r) + Contents(recs)
  {
    var all := [r] + recs;
    if recs == [] {
      assert all[..0] == [];
    } else {
      hide Cells;
      var n := |recs| - 1;
      assert all[..|all| - 1] == [r] + recs[..n];
      ContentsFront(r, recs[..n]);
      Assoc(Cells(r), Contents(recs[..n]), Cells(recs[n]));
    }
  }

  /** Every record costs twelve bytes, every written byte one, inside a record or not. */
  lemma {:induction false} LengthOfBody(events: seq<Event>)
    requires |events| < TWO_TO_32 && WritesOnly(events) && events != []
    ensures var c := WritesOf(events);
      |c| == |events| && c[|c| - 1].address == events[|events| - 1].address && c[0].address == events[0].address
    ensures |LogOf(events).recs| == Breaks(WritesOf(events)) + if events[0].address == 0 then 0 else 1
    ensures |LogOf(events).raw| + |Contents(LogOf(events).recs)| == |events|
  {
    var n := |events| - 1;
    var l := LogOf(events[..n]);
    CurrentIsLast(events[..n]);
    var e := events[n];
    if n == 0 {
      assert events[..0] == [];
      assert Cells(Record(e.address, [])) == [];
      ContentsAppend([], Record(e.address, [e.byte]));
    } else {
      LengthOfBody(events[..n]);
      BreaksAppend(WritesOf(events[..n]), Cell(e.address, e.byte));
      LengthOfStep(l, e);
    }
  }

  lemma LengthOfStep(l: Log, e: Event)
    requires e.Write?
    ensures var m := Step(l, e); |m.raw| + |Contents(m.recs)| == |l.raw| + |Contents(l.recs)| + 1
    ensures |Step(l, e).recs| == |l.recs| + if e.address == Next(l.current) then 0 else 1
  {
    if e.address != Next(l.current) {
      ContentsAppend(l.recs, Record(e.address, [e.byte]));
    } else if l.recs != [] {
      var n := |l.recs| - 1;
      var last := l.recs[n];
      ContentsAppend(l.recs[..n], last);
      ContentsAppend(l.recs[..n], Record(last.address, last.data + [e.byte]));
      assert l.recs[..n] + [last] == l.recs;
    }
  }

  lemma {:induction false} LengthOfEncodeAll(recs: seq<Record>)
    requires AllFit(recs)
    ensures |EncodeAll(recs)| == |Contents(recs)| + 12 * |recs|
  {
    if recs != [] {
      LengthOfEncodeAll(recs[..|recs| - 1]);
    }
  }

  /** Without program starts the file can be read back if and only if the first address is not zero. */
  lemma ReproducedIffNotAtZero(events: seq<Event>)
    requires |events| < TWO_TO_32 && WritesOnly(events)
    ensures Reproduces(Body(events), WritesOf(events)) <==> events == [] || events[0].address != 0
  {
    if events == [] || events[0].address != 0 {
      CleanIsReproduced(events);
    } else if Reproduces(Body(events), WritesOf(events)) {
      var recs := Parse(Body(events)).value;
      LengthOfBody(events);
      LengthOfEncodeAll(LogOf(events).recs);
      LengthOfParsed(Body(events));
      BreaksOfContents(recs);
      assert false;
    }
  }

  // ----- program starts -----

  /** The program start is the last record, of length zero, if and only if its address is not the one
      that would have come next. */
  lemma StartIsKept(events: seq<Event>, a: Word32)
    requires |events| + 1 < TWO_TO_32 && Clean(events)
    ensures var recs, p := LogOf(events).recs, Parse(Body(events + [Start(a)]));
      p.Some? && (p.value == recs + [Record(a, [])] <==> a != Next(LogOf(events).current))
  {
    hide Parse, Encode, EncodeAll, Clean, Contents, Cells;
    BodyAfterStart(events, a);
    var recs := LogOf(events).recs;
    assert |recs + [Record(a, [])]| == |recs| + 1;
  }

  lemma BodyAfterStart(events: seq<Event>, a: Word32)
    requires |events| + 1 < TWO_TO_32 && Clean(events)
    ensures Parse(Body(events + [Start(a)])) == Some(Step(LogOf(events), Start(a)).recs)
  {
    hide Parse, Encode, EncodeAll, Clean, Contents, Cells, Step;
    var all := events + [Start(a)];
    assert all[..|events|] == events && LogOf(all) == Step(LogOf(events), Start(a));
    CleanLog(events);
    StepStarts(LogOf(events), Start(a));
    ParseOfEncodeAll(LogOf(all).recs);
    assert [] + EncodeAll(LogOf(all).recs) == EncodeAll(LogOf(all).recs);
  }

  lemma LogBehindStart(x: Word32, b: Byte)
    requires x != 0
    ensures LogOf([Start(x), Write(Next(x), b)]) == Log([], [Record(x, [b])], Next(x))
    ensures WritesOf([Start(x), Write(Next(x), b)]) == [Cell(Next(x), b)]
  {
    var e := [Start(x), Write(Next(x), b)];
    assert e[..1] == [Start(x)] && e[..1][..0] == [];
    assert LogOf(e[..1]) == Log([], [Record(x, [])], x) && WritesOf(e[..1]) == [];
    assert LogOf(e) == Step(LogOf(e[..1]), e[1]);
    assert [] + [b] == [b] && [Record(x, [])][..0] + [Record(x, [b])] == [Record(x, [b])];
  }

  /** A byte written right behind a program start is read back one address too low. */
  lemma ByteBehindStartMoves(x: Word32, b: Byte)
    requires x != 0
    ensures WritesOf([Start(x), Write(Next(x), b)]) == [Cell(Next(x), b)]
    ensures Reproduces(Body([Start(x), Write(Next(x), b)]), [Cell(x, b)])
  {
    hide LogOf, WritesOf, Parse, Encode, EncodeAll;
    LogBehindStart(x, b);
    var r := Record(x, [b]);
    ParseOfEncodeAll([r]);
    assert [] + EncodeAll([r]) == EncodeAll([r]);
    ContentsAppend([], r);
    assert [] + [r] == [r] && Cells(Record(x, [])) == [];
  }

  // ----- the exact condition -----

  /** How far the open record is behind: the program starts it has absorbed. */
  function Lag(events: seq<Event>): (lag: nat)
    ensures lag <= |events|
  {
    if events == [] then 0
    else
      var n := |events| - 1;
      LagStep(LogOf(events[..n]), Lag(events[..n]), events[n])
  }

  /** The next byte of the open record belongs `lag` below the next address. */
  predicate Lags(l: Log, lag: nat) {
    l.recs != [] && var last := l.recs[|l.recs| - 1]; After(After(last.address, |last.data|), lag) == Next(l.current)
  }

  function LagStep(l: Log, lag: nat, e: Event): nat {
    (if e.address != Next(l.current) then 0 else lag) + if e.Start? then 1 else 0
  }

  lemma StepLags(l: Log, lag: nat, e: Event)
    requires Step(l, e).raw == [] && Step(l, e).recs != [] && (e.address == Next(l.current) ==> Lags(l, lag))
    ensures Lags(Step(l, e), LagStep(l, lag, e))
  {
    if e.address != Next(l.current) {
      AfterNext(e.address, 0);
      NextOfAfter(e.address, 0);
    } else {
      var last := l.recs[|l.recs| - 1];
      AfterNext(last.address, |last.data|);
      NextOfAfter(After(last.address, |last.data|), lag);
    }
  }

  lemma {:induction false} LagIsOffset(events: seq<Event>)
    requires LogOf(events).raw == [] && LogOf(events).recs != []
    ensures Lags(LogOf(events), Lag(events))
  {
    hide Lags, Step;
    var n := |events| - 1;
    var l, e := LogOf(events[..n]), events[n];
    if e.address == Next(l.current) {
      StepBack(l, e);
      LagIsOffset(events[..n]);
    }
    StepLags(l, Lag(events[..n]), e);
  }

  lemma StepBack(l: Log, e: Event)
    requires e.address == Next(l.current) && Step(l, e).raw == [] && (Step(l, e).recs != [] || e.Write?)
    ensures l.raw == [] && l.recs != []
  {
  }

  lemma NextOfAfter(a: Word32, n: nat)
    ensures Next(After(a, n)) == After(a, n + 1) == After(Next(a), n)
  {
  }

  lemma StepGrows(l: Log, e: Event)
    ensures Contents(l.recs) <= Contents(Step(l, e).recs)
    ensures l.raw <= Step(l, e).raw
  {
    if e.address != Next(l.current) {
      ContentsAppend(l.recs, Record(e.address, if e.Write? then [e.byte] else []));
    } else if e.Write? && l.recs != [] {
      StepInto(l, e);
    }
  }

  /** A byte that goes to the open record is filed at the end of that record. */
  lemma StepInto(l: Log, e: Event)
    requires e.Write? && e.address == Next(l.current) && l.recs != []
    ensures var last := l.recs[|l.recs| - 1];
      Contents(Step(l, e).recs) == Contents(l.recs) + [Cell(After(last.address, |last.data|), e.byte)]
  {
    hide Contents;
    var n := |l.recs| - 1;
    var last := l.recs[n];
    assert (last.data + [e.byte])[..|last.data|] == last.data;
    ContentsAppend(l.recs[..n], last);
    ContentsAppend(l.recs[..n], Record(last.address, last.data + [e.byte]));
    assert l.recs[..n] + [last] == l.recs;
  }

  /** The first byte behind a program start is filed at another address than its own. */
  lemma {:induction false} UncleanDiffers(events: seq<Event>) returns (k: nat)
    requires |events| < TWO_TO_32 && LogOf(events).raw == [] && !Clean(events)
    ensures var c, w := Contents(LogOf(events).recs), WritesOf(events); k < |c| && k < |w| && c[k] != w[k]
  {
    var n := |events| - 1;
    var front, e := events[..n], events[n];
    var l := LogOf(front);
    StepGrows(l, e);
    if !Clean(front) {
      k := UncleanDiffers(front);
    } else {
      CleanLog(front);
      CurrentIsLast(front);
      UncleanAtEnd(events);
      StepInto(l, e);
      LagIsOffset(front);
      var last := l.recs[|l.recs| - 1];
      AfterMoves(After(last.address, |last.data|), Lag(front));
      k := |WritesOf(front)|;
    }
  }

  lemma LastIsBehind(events: seq<Event>)
    requires events != [] && !Clean(events) && Clean(events[..|events| - 1])
    ensures BehindStart(events, |events| - 1)
  {
    hide BehindStart;
    var n := |events| - 1;
    var i :| 0 <= i < |events| && BehindStart(events, i);
    if i < n {
      BehindStartPrefix(events, n, i);
    }
  }

  lemma BehindStartFollows(events: seq<Event>)
    requires events != [] && BehindStart(events, |events| - 1)
    ensures var n := |events| - 1; events[n].Write? && events[n].address == Next(LogOf(events[..n]).current)
    ensures events[..|events| - 1] != [] ==> var front := events[..|events| - 1]; front[|front| - 1].Start?
  {
    hide LogOf, Next;
    CurrentIsLast(events[..|events| - 1]);
  }

  lemma UncleanAtEnd(events: seq<Event>)
    requires events != [] && LogOf(events).raw == [] && !Clean(events) && Clean(events[..|events| - 1])
    ensures var n := |events| - 1; var l := LogOf(events[..n]);
      events[n].Write? && events[n].address == Next(l.current) && l.raw == [] && l.recs != [] && Lag(events[..n]) > 0
  {
    hide *;
    LastIsBehind(events);
    BehindStartFollows(events);
    LogOfLast(events);
    StepBack(LogOf(events[..|events| - 1]), events[|events| - 1]);
    StartedLags(events[..|events| - 1]);
  }

  lemma LogOfLast(events: seq<Event>)
    requires events != []
    ensures LogOf(events) == Step(LogOf(events[..|events| - 1]), events[|events| - 1])
  {
  }

  lemma StartedLags(events: seq<Event>)
    requires events == [] ==> LogOf(events).recs != []
    requires events != [] ==> events[|events| - 1].Start?
    ensures Lag(events) > 0
  {
  }

  lemma AfterMoves(a: Word32, n: nat)
    requires 0 < n < TWO_TO_32
    ensures After(a, n) != a
  {
  }

  /** As long as no byte is written before the first record, the file gives back exactly what was written if
      and only if no byte is written right behind a program start. */
  lemma ReproducedIffClean(events: seq<Event>)
    requires |events| < TWO_TO_32 && LogOf(events).raw == []
    ensures Reproduces(Body(events), WritesOf(events)) <==> Clean(events)
  {
    hide Parse, Body, LogOf, Contents, WritesOf, Clean;
    BodyIsRead(events);
    if Clean(events) {
      CleanLog(events);
    } else {
      var k := UncleanDiffers(events);
    }
  }

  /** Bytes before the first record come from a first call at address zero only. */
  lemma {:induction false} RecordsFromStart(events: seq<Event>)
    requires events == [] || events[0].address != 0
    ensures LogOf(events).raw == [] && (events != [] ==> LogOf(events).recs != [])
  {
    if events != [] {
      RecordsFromStart(events[..|events| - 1]);
    }
  }

  // ----- the writer -----

  function Tag(big: bool): Word32 {
    if big then 0xDEAD_BE42 else 0xFEED_FA42
  }

  function Overwrite(file: seq<Byte>, pos: nat, data: seq<Byte>): seq<Byte>
    requires pos <= |file|
  {
    file[..pos] + data + if pos + |data| < |file| then file[pos + |data|..] else []
  }

  /** The output file with its position, and the globals that belong to the open record. */
  class Output {
    var file: seq<Byte>
    var pos: nat
    var checkSum: Word32
    var recLength: nat
    var recStart: bool
    var addressCurrent: Word32

    /** The file is complete up to the last record, whose length and checksum are still missing. */
    ghost predicate Valid(tag: Word32, l: Log)
      reads this
    {
      && pos == |file| && addressCurrent == l.current && recStart == (l.recs != []) && AllFit(l.recs)
      && if l.recs == [] then file == Le32(tag) + l.raw
         else
           var n := |l.recs| - 1;
           var last := l.recs[n];
           && recLength == |last.data| && checkSum == (last.address + Sum(last.data)) % TWO_TO_32
           && file == Le32(tag) + l.raw + EncodeAll(l.recs[..n]) + Le32(0) + Le32(last.address) + last.data
    }

    constructor (big: bool)
      ensures Valid(Tag(big), BEGIN)
    {
      file, pos, checkSum, recLength, recStart := [], 0, 0, 0, false;
      addressCurrent := 0xFFFF_FFFF;
      new;
      Out32(Tag(big));
    }

    /** fwrite: over what is there, and behind it. */
    method FWrite(data: seq<Byte>)
      requires pos <= |file|
      modifies this`file, this`pos
      ensures pos == old(pos) + |data| <= |file| && file == Overwrite(old(file), old(pos), data)
    {
      file := Overwrite(file, pos, data);
      pos := pos + |data|;
    }

    /** binOut32. */
    method Out32(data: Word32)
      requires pos <= |file|
      modifies this`file, this`pos
      ensures pos == old(pos) + 4 <= |file| && file == Overwrite(old(file), old(pos), Le32(data))
    {
      var sdat: seq<Byte> := [];
      for i := 0 to 4
        invariant |sdat| == i && forall k :: 0 <= k < i ==> sdat[k] == ByteAt(data, k)
      {
        sdat := sdat + [ByteAt(data, i)];
      }
      assert sdat == Le32(data);
      FWrite(sdat);
    }

    method Out8(data: Byte)
      requires pos <= |file|
      modifies this`file, this`pos, this`recLength
      ensures pos == old(pos) + 1 <= |file| && recLength == old(recLength) + 1
      ensures file == Overwrite(old(file), old(pos), [data])
    {
      FWrite([data]);
      recLength := recLength + 1;
    }

    /** binRecStart: the length is written as zero for now. */
    method RecStart(address: Word32)
      requires pos == |file|
      modifies this`file, this`pos, this`recLength, this`checkSum, this`recStart
      ensures pos == |file| && file == old(file) + Le32(0) + Le32(address)
      ensures recLength == 0 && checkSum == address && recStart
    {
      recLength := 0;
      checkSum := address;
      recStart := true;
      Out32(recLength);
      Out32(address);
    }

    /** Seeks back over the data and the address and fills in the length. */
    method FillInLength(ghost front: seq<Byte>, ghost address: Word32, ghost data: seq<Byte>)
      requires file == front + Le32(0) + Le32(address) + data && pos == |file|
      requires recLength == |data| < TWO_TO_32
      modifies this`file, this`pos
      ensures file == front + Le32(recLength) + Le32(address) + data && pos == |file|
    {
      var recEnd := pos;
      pos := pos - recLength;
      pos := pos - 4;
      pos := pos - 4;
      assert file[..pos] == front && file[pos + 4..] == Le32(address) + data;
      Out32(recLength);
      assert file == front + Le32(recLength) + (Le32(address) + data);
      pos := recEnd;
    }

    /** binRecEnd: fills in the length, then closes the record with its checksum. */
    method RecEnd(ghost tag: Word32, ghost l: Log)
      requires Valid(tag, l)
      modifies this`file, this`pos, this`checkSum, this`recStart
      ensures pos == |file| && file == Le32(tag) + l.raw + EncodeAll(l.recs)
    {
      hide Le32, Sum, CheckWord, Encode, EncodeAll;
      if !recStart {
        NoneClosed(Le32(tag) + l.raw);
        return;
      }
      recStart := false;
      ghost var n := |l.recs| - 1;
      ghost var last := l.recs[n];
      ghost var front := Le32(tag) + l.raw + EncodeAll(l.recs[..n]);
      FillInLength(front, last.address, last.data);
      checkSum := (checkSum + recLength) % TWO_TO_32;
      checkSum := (0xFFFF_FFFF - checkSum + 1) % TWO_TO_32;
      CheckSumIsCheckWord(last);
      Out32(checkSum);
      Closed(Le32(tag) + l.raw, l.recs);
    }

    /** The first half of both calls: a new record unless the address comes next. */
    method Turn(address: Word32, ghost tag: Word32, ghost l: Log)
      requires Valid(tag, l)
      modifies this
      ensures Valid(tag, Step(l, Start(address)))
    {
      hide Le32, Encode, EncodeAll;
      if address != (addressCurrent + 1) % TWO_TO_32 {
        RecEnd(tag, l);
        RecStart(address);
        assert address % TWO_TO_32 == address;
        assert (l.recs + [Record(address, [])])[..|l.recs|] == l.recs;
        assert file == Le32(tag) + l.raw + EncodeAll(l.recs) + Le32(0) + Le32(address) + [];
      }
      addressCurrent := address;
    }

    method RecOutProgramStart(address: Word32, ghost tag: Word32, ghost l: Log)
      requires Valid(tag, l)
      modifies this
      ensures Valid(tag, Step(l, Start(address)))
    {
      hide *;
      Turn(address, tag, l);
    }

    method RecOutByte(address: Word32, data: Byte, ghost tag: Word32, ghost l: Log)
      requires Valid(tag, l) && (recStart ==> recLength + 1 < TWO_TO_32)
      modifies this
      ensures Valid(tag, Step(l, Write(address, data)))
    {
      Turn(address, tag, l);
      AppendByte(data, tag, Step(l, Start(address)));
      AppendIsWrite(l, address, data);
    }

    /** The second half of binRecOutByte. */
    method AppendByte(data: Byte, ghost tag: Word32, ghost l: Log)
      requires Valid(tag, l) && (recStart ==> recLength + 1 < TWO_TO_32)
      modifies this
      ensures Valid(tag, AppendTo(l, data))
    {
      hide Le32, Encode;
      ghost var n := |l.recs| - 1;
      if n >= 0 {
        ghost var last := l.recs[n];
        SumAppend(last.data, data);
        CarrySum(last.address + Sum(last.data), data);
        assert (l.recs[..n] + [Record(last.address, last.data + [data])])[..n] == l.recs[..n];
      }
      checkSum := (checkSum + data) % TWO_TO_32;
      Out8(data);
    }
  }

  function AppendTo(l: Log, b: Byte): Log {
    if l.recs == [] then l.(raw := l.raw + [b])
    else
      var last := l.recs[|l.recs| - 1];
      l.(recs := l.recs[..|l.recs| - 1] + [Record(last.address, last.data + [b])])
  }

  lemma AppendIsWrite(l: Log, address: Word32, b: Byte)
    ensures AppendTo(Step(l, Start(address)), b) == Step(l, Write(address, b))
  {
    var grown := l.recs + [Record(address, [])];
    assert grown[..|grown| - 1] == l.recs && [] + [b] == [b];
  }

  lemma SumAppend(s: seq<Byte>, b: Byte)
    ensures Sum(s + [b]) == Sum(s) + b
  {
    assert (s + [b])[..|s|] == s;
  }

  lemma CarrySum(n: nat, b: nat)
    ensures (n % TWO_TO_32 + b) % TWO_TO_32 == (n + b) % TWO_TO_32
  {
  }

  lemma CheckSumIsCheckWord(r: Record)
    ensures var c := ((r.address + Sum(r.data)) % TWO_TO_32 + |r.data|) % TWO_TO_32;
      (0xFFFF_FFFF - c + 1) % TWO_TO_32 == CheckWord(r)
  {
    hide Sum;
    CarrySum(r.address + Sum(r.data), |r.data|);
    TwosComplement(|r.data| + r.address + Sum(r.data));
  }

  lemma TwosComplement(n: nat)
    ensures (0xFFFF_FFFF - n % TWO_TO_32 + 1) % TWO_TO_32 == (0 - n) % TWO_TO_32
  {
    var q, c := n / TWO_TO_32, n % TWO_TO_32;
    assert 0 - n == -q * TWO_TO_32 - c;
    if c == 0 {
      assert (0 - n) % TWO_TO_32 == 0;
    } else {
      assert 0 - n == (-q - 1) * TWO_TO_32 + (TWO_TO_32 - c);
    }
  }

  lemma NoneClosed(front: seq<Byte>)
    ensures front + EncodeAll([]) == front
  {
  }

  lemma AtEnd(file: seq<Byte>, data: seq<Byte>)
    ensures Overwrite(file, |file|, data) == file + data
  {
  }

  lemma Regroup<T>(a: seq<T>, b: seq<T>, c: seq<T>, d: seq<T>, e: seq<T>, f: seq<T>)
    ensures a + b + c + d + e + f == a + (b + (c + d + e + f))
  {
  }

  lemma Closed(front: seq<Byte>, recs: seq<Record>)
    requires AllFit(recs) && recs != []
    ensures var n := |recs| - 1; var r := recs[n];
      var done := front + EncodeAll(recs[..n]) + Le32(|r.data|) + Le32(r.address) + r.data;
      Overwrite(done, |done|, Le32(CheckWord(r))) == front + EncodeAll(recs)
  {
    hide Le32, CheckWord, Overwrite;
    var n := |recs| - 1;
    var r := recs[n];
    AtEnd(front + EncodeAll(recs[..n]) + Le32(|r.data|) + Le32(r.address) + r.data, Le32(CheckWord(r)));
    Regroup(front, EncodeAll(recs[..n]), Le32(|r.data|), Le32(r.address), r.data, Le32(CheckWord(r)));
  }

  lemma LogOfNone(events: seq<Event>)
    ensures LogOf(events[..0]) == BEGIN
  {
  }

  lemma RoomForByte(o: Output, tag: Word32, events: seq<Event>)
    requires |events| + 1 < TWO_TO_32 && o.Valid(tag, LogOf(events))
    ensures o.recStart ==> o.recLength + 1 < TWO_TO_32
  {
    hide LogOf;
  }

  lemma BehindTag(tag: Word32, events: seq<Event>)
    requires |events| < TWO_TO_32
    ensures var file := Le32(tag) + LogOf(events).raw + EncodeAll(LogOf(events).recs);
      file == Le32(tag) + Body(events) && |file| >= 4 && file[4..] == Body(events)
  {
    hide LogOf, EncodeAll;
  }

  lemma WhenReproduced(events: seq<Event>)
    requires |events| < TWO_TO_32
    ensures Clean(events) ==> Reproduces(Body(events), WritesOf(events))
    ensures events == [] || events[0].address != 0 ==> (Reproduces(Body(events), WritesOf(events)) <==> Clean(events))
    ensures WritesOnly(events) ==>
              (Reproduces(Body(events), WritesOf(events)) <==> events == [] || events[0].address != 0)
  {
    hide *;
    if Clean(events) { CleanIsReproduced(events); }
    if WritesOnly(events) { ReproducedIffNotAtZero(events); }
    if events == [] || events[0].address != 0 {
      RecordsFromStart(events);
      ReproducedIffClean(events);
    }
  }

  /** srec2bin for the calls that the input lines lead to. */
  method Convert(big: bool, events: seq<Event>) returns (file: seq<Byte>)
    requires |events| < TWO_TO_32
    ensures file == Le32(Tag(big)) + Body(events)
    ensures Clean(events) ==> Reproduces(file[4..], WritesOf(events))
    ensures events == [] || events[0].address != 0 ==> (Reproduces(file[4..], WritesOf(events)) <==> Clean(events))
    ensures WritesOnly(events) ==> (Reproduces(file[4..], WritesOf(events)) <==> events == [] || events[0].address != 0)
  {
    hide *;
    var o := new Output(big);
    LogOfNone(events);
    for i := 0 to |events|
      invariant o.Valid(Tag(big), LogOf(events[..i]))
    {
      LogOfLast(events[..i + 1]);
      assert events[..i + 1][..i] == events[..i];
      match events[i] {
        case Start(a) => o.RecOutProgramStart(a, Tag(big), LogOf(events[..i]));
        case Write(a, b) =>
          RoomForByte(o, Tag(big), events[..i]);
          o.RecOutByte(a, b, Tag(big), LogOf(events[..i]));
      }
    }
    assert events[..|events|] == events;
    o.RecEnd(Tag(big), LogOf(events));
    file := o.file;
    BehindTag(Tag(big), events);
    WhenReproduced(events);
  }
}
