/** Reading a configuration file through one line buffer that is edited in place, and writing one. */
module ConfData {

  import opened Options
  import opened Tristate
  import opened ConfText

  /** buf holds the C string t, starting at position from. */
  ghost predicate Holds(buf: seq<char>, from: nat, t: string) {
    NUL !in t && from + |t| < |buf| && buf[from..from + |t|] == t && buf[from + |t|] == NUL
  }

  lemma HoldsEach(buf: seq<char>, from: nat, t: string)
    requires Holds(buf, from, t)
    ensures forall k :: from <= k < from + |t| ==> buf[k] == t[k - from] && buf[k] != NUL
  {
    forall k | from <= k < from + |t| ensures buf[k] == t[k - from] && buf[k] != NUL {
      assert buf[k] == buf[from..from + |t|][k - from];
      assert t[k - from] in t;
    }
  }

  lemma PartHasNoNul(t: string, from: nat, to: nat)
    requires NUL !in t && from <= to <= |t|
    ensures NUL !in t[from..to]
  {
  }

  lemma PrefixOfBuffer(buf: seq<char>, t: string, from: nat, word: string)
    requires Holds(buf, 0, t) && from <= |t| && NUL !in word
    ensures (from + |word| <= |buf| && buf[from..from + |word|] == word) <==> word <= t[from..]
  {
    if from + |word| <= |buf| && buf[from..from + |word|] == word {
      assert forall i :: from <= i < from + |word| ==> buf[i] == word[i - from] && word[i - from] in word;
      assert from + |word| <= |t|;
      assert forall i :: 0 <= i < |word| ==> word[i] == buf[from..from + |word|][i] == buf[..|t|][from + i];
    }
    if word <= t[from..] {
      assert forall i :: 0 <= i < |word| ==> word[i] == t[from..][i] == buf[from + i];
    }
  }

  // ----- one step of the unescaping loop -----

  lemma PrependThrice(a: string, b: string, c: string, r: Option<string>)
    ensures Prepend(a, Prepend(b, Prepend(c, r))) == Prepend(a + b + c, r)
  {
    if r.Some? {
      assert a + (b + (c + r.value)) == a + b + c + r.value;
    }
  }

  lemma UnescapePair(d: string, r: string, k: nat)
    requires k + 1 < |r| && r[k] == '\\' && forall i :: 0 <= i < k ==> !Special(r[i])
    ensures Prepend(d, Unescape(r)) == Prepend(d + r[..k] + [r[k + 1]], Unescape(r[k + 2..]))
  {
    UnescapeSkips(r, k);
    assert r[k..][2..] == r[k + 2..] && r[k..][1] == r[k + 1];
    assert Unescape(r[k..]) == Prepend([r[k + 1]], Unescape(r[k + 2..]));
    PrependThrice(d, r[..k], [r[k + 1]], Unescape(r[k + 2..]));
  }

  lemma UnescapeClosed(d: string, r: string, k: nat)
    requires k < |r| && r[k] == '"' && forall i :: 0 <= i < k ==> !Special(r[i])
    ensures Prepend(d, Unescape(r)) == Some(d + r[..k])
  {
    UnescapeSkips(r, k);
    assert r[..k] + "" == r[..k];
  }

  lemma UnescapeOpen(r: string, k: nat)
    requires k <= |r| && (k < |r| ==> k + 1 == |r| && r[k] == '\\') && forall i :: 0 <= i < k ==> !Special(r[i])
    ensures Unescape(r) == None
  {
    UnescapeSkips(r, k);
  }

  class Reader {
    const line: array<char>
    var symbols: Table
    var warnings: nat

    constructor (table: Table)
      ensures fresh(line) && line.Length == LINE_SIZE && symbols == table
    {
      line := new char[LINE_SIZE];
      symbols, warnings := table, 0;
    }

    // ----- the C library on the buffer -----

    method FGets(file: string, pos: nat) returns (next: nat)
      requires line.Length == LINE_SIZE && pos < |file| && NUL !in file
      modifies line
      ensures next == pos + LineLength(file[pos..]) && Holds(line[..], 0, file[pos..next])
    {
      ghost var rest := file[pos..];
      var n := 0;
      while n < LINE_SIZE - 1 && pos + n < |file| && (n > 0 ==> line[n - 1] != '\n')
        invariant n < LINE_SIZE && pos + n <= |file|
        invariant line[..n] == rest[..n] && forall i :: 0 <= i < n - 1 ==> rest[i] != '\n'
      {
        line[n] := file[pos + n];
        n := n + 1;
      }
      line[n] := NUL;
      next := pos + n;
      assert file[pos..next] == rest[..n];
      if n > 0 && rest[n - 1] == '\n' {
        FindIs(rest, 0, '\n', n - 1);
      } else {
        FindBeyond(rest, 0, '\n', n);
      }
    }

    method StrChr(from: nat, c: char, ghost t: string) returns (r: int)
      requires from <= line.Length && Holds(line[..], 0, t) && c != NUL
      ensures -1 <= r < line.Length && (r >= 0 ==> from <= r)
      ensures from <= |t| ==> r == if Find(t, from, c) < |t| then Find(t, from, c) else -1
    {
      r := from;
      while r < line.Length && line[r] != c && line[r] != NUL
        invariant from <= r <= line.Length
        invariant from <= |t| ==> r <= |t| && c !in line[from..r]
      {
        r := r + 1;
      }
      if from <= |t| {
        assert line[..|t|][from..r] == line[from..r] == t[from..r];
        if r < |t| {
          assert t[r] == line[..|t|][r];
          FindIs(t, from, c, r);
        } else {
          FindNone(t, from, c);
        }
      }
      if r == line.Length || line[r] != c { r := -1; }
    }

    /** memcmp and strncmp against a word without NUL. */
    method StartsWith(from: nat, word: string) returns (b: bool)
      ensures b <==> from + |word| <= line.Length && line[from..from + |word|] == word
    {
      var i := 0;
      while i < |word| && from + i < line.Length && line[from + i] == word[i]
        invariant 0 <= i <= |word| && (i > 0 ==> from + i <= line.Length)
        invariant from + i <= line.Length ==> line[from..from + i] == word[..i]
      {
        i := i + 1;
      }
      b := i == |word| && from + i <= line.Length;
      assert from + |word| <= line.Length && i < |word| ==> line[from..from + |word|][i] != word[i];
    }

    /** The C string that starts at from. */
    method Str(from: nat, ghost t: string) returns (s: string)
      requires from <= line.Length
      ensures Holds(line[..], from, t) ==> s == t
    {
      var r := from;
      while r < line.Length && line[r] != NUL
        invariant from <= r <= line.Length
        invariant Holds(line[..], from, t) ==> r <= from + |t|
      {
        if Holds(line[..], from, t) {
          assert line[..][from + |t|] == NUL;
        }
        r := r + 1;
      }
      s := line[from..r];
      if Holds(line[..], from, t) {
        HoldsEach(line[..], from, t);
        assert r == from + |t|;
      }
    }

    /** strpbrk(line + from, "\"\\"). */
    method StrPBrk(from: nat, ghost t: string) returns (r: int)
      requires Holds(line[..], from, t)
      ensures r == -1 || from <= r < from + |t|
      ensures r >= 0 ==> Special(line[r]) && forall i :: 0 <= i < r - from ==> !Special(t[i])
      ensures r < 0 ==> forall i :: 0 <= i < |t| ==> !Special(t[i])
    {
      HoldsEach(line[..], from, t);
      r := from;
      while line[r] != NUL && !Special(line[r])
        invariant from <= r <= from + |t|
        invariant forall i :: 0 <= i < r - from ==> !Special(t[i])
        decreases from + |t| - r
      {
        r := r + 1;
      }
      if line[r] == NUL { r := -1; }
    }

    method StrLen(from: nat, ghost t: string) returns (n: nat)
      requires Holds(line[..], from, t)
      ensures n == |t|
    {
      HoldsEach(line[..], from, t);
      assert line[..][from + |t|] == NUL;
      n := 0;
      while line[from + n] != NUL
        invariant n <= |t|
        decreases |t| - n
      {
        n := n + 1;
      }
    }

    /** memmove(line + to, line + to + 1, n). */
    method MoveDown(to: nat, n: nat)
      requires to + 1 + n <= line.Length
      modifies line
      ensures line[..] == old(line[..to]) + old(line[to + 1..to + 1 + n]) + old(line[to + n..])
    {
      var i := 0;
      while i < n
        invariant 0 <= i <= n
        invariant forall j :: 0 <= j < to ==> line[j] == old(line[j])
        invariant forall j :: to <= j < to + i ==> line[j] == old(line[j + 1])
        invariant forall j :: to + i <= j < line.Length ==> line[j] == old(line[j])
      {
        line[to + i] := line[to + i + 1];
        i := i + 1;
      }
      assert line[..to] == old(line[..to]);
      assert line[to..to + n] == old(line[to + 1..to + 1 + n]);
      assert line[to + n..] == old(line[to + n..]);
      assert line[..] == line[..to] + line[to..to + n] + line[to + n..];
    }

    /** One round of the loop at a backslash: the character after it moves into its place. */
    method DropBackslash(at: nat, q: nat, ghost r: string)
      requires Holds(line[..], at, r) && at <= q < at + |r|
      modifies line
      ensures line[..q] == old(line[..q])
      ensures q + 1 < at + |r| ==> line[q] == r[q - at + 1] && Holds(line[..], q + 1, r[q - at + 2..])
      ensures q + 1 == at + |r| ==> Holds(line[..], q + 1, "")
    {
      HoldsEach(line[..], at, r);
      ghost var k := q - at;
      assert line[..][q..q + |r[k..]|] == r[k..];
      var n := StrLen(q, r[k..]);
      label L:
      MoveDown(q, n);
      assert line[..][q..q + n] == old@L(line[q + 1..q + 1 + n]);
      assert line[q + n] == old@L(line[q + n]) == NUL;
      forall j | q <= j < q + n ensures line[j] == old@L(line[j + 1]) {
        assert line[j] == line[..][q..q + n][j - q];
      }
    }

    /** d is what has been unescaped at p so far, r is what lies ahead at at. */
    ghost predicate Between(p: nat, at: nat, s: string, d: string, r: string)
      reads line
    {
      && p <= at && Holds(line[..], at, r)
      && Unescape(s) == Prepend(d, Unescape(r))
      && (r != "" ==> at == p + |d| && line[p..at] == d && NUL !in d)
    }

    /** What strpbrk has found ahead. */
    ghost predicate NextSpecial(at: nat, q: int, r: string)
      reads line
    {
      && (q == -1 || at <= q < at + |r|)
      && (q >= 0 ==> q < line.Length && Special(line[q]) && forall i :: 0 <= i < q - at ==> !Special(r[i]))
      && (q < 0 ==> forall i :: 0 <= i < |r| ==> !Special(r[i]))
    }

    method CloseText(p: nat, at: nat, q: nat, ghost s: string, ghost d: string, ghost r: string)
      requires Between(p, at, s, d, r) && NextSpecial(at, q, r) && line[q] == '"'
      modifies line
      ensures Unescape(s).Some? && Holds(line[..], p, Unescape(s).value)
    {
      HoldsEach(line[..], at, r);
      UnescapeClosed(d, r, q - at);
      assert line[p..q] == d + r[..q - at];
      line[q] := NUL;
      assert line[..][p..q] == d + r[..q - at];
      assert forall i :: 0 <= i < q - at ==> r[i] in r;
    }

    method PassBackslash(p: nat, at: nat, q: nat, ghost s: string, ghost d: string, ghost r: string)
      returns (ghost d': string, ghost r': string)
      requires Between(p, at, s, d, r) && NextSpecial(at, q, r) && line[q] == '\\'
      modifies line
      ensures Between(p, q + 1, s, d', r') && |r'| < |r|
    {
      HoldsEach(line[..], at, r);
      ghost var k := q - at;
      assert line[p..q] == d + r[..k];
      DropBackslash(at, q, r);
      assert line[p..q] == d + r[..k] by { assert line[..q] == old(line[..q]); }
      if k + 1 < |r| {
        UnescapePair(d, r, k);
        assert forall i :: 0 <= i < |r| ==> r[i] in r;
        d', r' := d + r[..k] + [r[k + 1]], r[k + 2..];
        assert line[p..q + 1] == line[p..q] + [line[q]];
      } else {
        UnescapeOpen(r, k);
        d', r' := d, "";
      }
    }

    /** The text of a quoted value, unescaped where it stands. */
    method UnescapeInPlace(p: nat, ghost s: string) returns (ok: bool)
      requires Holds(line[..], p, s)
      modifies line
      ensures ok <==> Unescape(s).Some?
      ensures ok ==> Holds(line[..], p, Unescape(s).value)
    {
      var at: nat := p;
      ghost var d, r := "", s;
      assert Unescape(s) == Prepend(d, Unescape(r)) by {
        if Unescape(s).Some? { assert "" + Unescape(s).value == Unescape(s).value; }
      }
      var q := StrPBrk(at, r);
      while q >= 0
        invariant Between(p, at, s, d, r) && NextSpecial(at, q, r)
        decreases |r|
      {
        if line[q] == '"' {
          CloseText(p, at, q, s, d, r);
          return true;
        }
        d, r := PassBackslash(p, at, q, s, d, r);
        at := q + 1;
        q := StrPBrk(at, r);
      }
      UnescapeOpen(r, |r|);
      ok := false;
    }

    // ----- values and lines -----

    /** sym_string_valid for text and numbers. */
    method StringValid(kind: Kind, s: string) returns (ok: bool)
      requires kind !in {BoolKind, TriKind}
      ensures ok == (match kind case IntKind => ValidInt(s) case HexKind => ValidHex(s) case _ => true)
    {
      if kind == StringKind { return true; }
      if kind == IntKind {
        var at := if |s| > 0 && s[0] == '-' then 1 else 0;
        assert Unsigned(s) == s[at..];
        if at == |s| || !IsDigit(s[at]) || (s[at] == '0' && at + 1 < |s|) {
          return false;
        }
        var i := at + 1;
        while i < |s|
          invariant at < i <= |s| && forall j :: 0 <= j < i - at ==> IsDigit(s[at..][j])
        {
          if !IsDigit(s[i]) {
            assert !IsDigit(s[at..][i - at]);
            return false;
          }
          i := i + 1;
        }
        return true;
      }
      var i := if HasHexMark(s) then 2 else 0;
      ghost var t := WithoutHexMark(s);
      ghost var at := i;
      assert t == s[at..];
      if i == |s| { return false; }
      while i < |s|
        invariant at <= i <= |s| && forall j :: 0 <= j < i - at ==> IsHexDigit(t[j])
      {
        if !IsHexDigit(s[i]) {
          assert !IsHexDigit(t[i - at]);
          return false;
        }
        i := i + 1;
      }
      return true;
    }

    method SetUser(name: string, v: Value)
      requires name in symbols
      modifies this`symbols
      ensures symbols == Apply(old(symbols), Assign(name, v))
    {
      symbols := symbols[name := symbols[name].(user := v, isNew := false)];
    }

    /** The switch over the type of a symbol whose value stands at p. */
    method ReadInto(name: string, p: nat, ghost v: string)
      requires name in symbols && Holds(line[..], p, v)
      modifies this`symbols, this`warnings, line
      ensures var r := ReadValue(old(symbols)[name].kind, v);
        symbols == Apply(old(symbols), if r.None? then Skip else Assign(name, r.value))
    {
      HoldsEach(line[..], p, v);
      var kind := symbols[name].kind;
      if kind == TriKind && line[p] == 'm' {
        SetUser(name, OfTri(Mod));
        return;
      }
      if kind == TriKind || kind == BoolKind {
        if line[p] == 'y' {
          SetUser(name, OfTri(Yes));
        } else if line[p] == 'n' {
          SetUser(name, OfTri(No));
        } else {
          warnings := warnings + 1;
        }
        return;
      }
      ReadString(name, p, v);
    }

    method ReadString(name: string, p: nat, ghost v: string)
      requires name in symbols && symbols[name].kind !in {BoolKind, TriKind} && Holds(line[..], p, v)
      modifies this`symbols, this`warnings, line
      ensures var r := ReadValue(old(symbols)[name].kind, v);
        symbols == Apply(old(symbols), if r.None? then Skip else Assign(name, r.value))
    {
      HoldsEach(line[..], p, v);
      var kind, at := symbols[name].kind, p;
      ghost var t := v;
      if kind == StringKind {
        if line[p] != '"' { return; }
        at := p + 1;
        assert Holds(line[..], at, v[1..]) by { assert line[..][at..at + |v[1..]|] == v[1..]; }
        var ok := UnescapeInPlace(at, v[1..]);
        if !ok {
          warnings := warnings + 1;
          return;
        }
        t := Unescape(v[1..]).value;
      }
      var s := Str(at, t);
      var ok := StringValid(kind, s);
      if ok {
        SetUser(name, Text(s));
      } else {
        warnings := warnings + 1;
      }
    }

    /** *p = 0: the name ends where the space was. */
    method EndName(p: nat, ghost t: string)
      requires p < line.Length && Holds(line[..], 0, t) && (|t| >= 9 ==> 9 <= p <= |t|)
      modifies line
      ensures |t| >= 9 ==> Holds(line[..], 9, t[9..p])
    {
      HoldsEach(line[..], 0, t);
      line[p] := NUL;
      if |t| >= 9 { assert line[..][9..p] == t[9..p]; }
    }

    /** A line that begins with a number sign. */
    method ProcessUnset(ghost t: string)
      requires line.Length == LINE_SIZE && Holds(line[..], 0, t) && "#" <= t
      modifies this`symbols, line
      ensures t != "#" ==> symbols == Apply(old(symbols), ReadUnset(old(symbols), t))
    {
      HoldsEach(line[..], 0, t);
      var same := StartsWith(2, "CONFIG_");
      if |t| >= 2 { PrefixOfBuffer(line[..], t, 2, "CONFIG_"); }
      if !same { return; }
      var p := StrChr(9, ' ', t);
      if p < 0 { return; }
      same := StartsWith(p + 1, "is not set");
      if |t| >= 9 { PrefixOfBuffer(line[..], t, p + 1, "is not set"); }
      EndName(p, t);
      if !same { return; }
      var name := Str(9, if |t| >= 9 then t[9..p] else "");
      if name in symbols && symbols[name].kind in {BoolKind, TriKind} {
        SetUser(name, OfTri(No));
      }
    }

    /** A line that begins with a letter C. */
    method ProcessSet(ghost t: string)
      requires Holds(line[..], 0, t) && "C" <= t
      modifies this, line
      ensures symbols == Apply(old(symbols), ReadLine(old(symbols), t))
    {
      var same := StartsWith(0, "CONFIG_");
      PrefixOfBuffer(line[..], t, 0, "CONFIG_");
      assert t[0..] == t && t[0] != '#';
      if !same {
        warnings := warnings + 1;
        return;
      }
      var p := StrChr(7, '=', t);
      if p < 0 { return; }
      Split(p, t);
      var name := Str(7, t[7..p]);
      if name in symbols {
        ReadInto(name, p + 1, t[p + 1..Find(t, p + 1, '\n')]);
      }
    }

    /** Ends the name at the = sign and the value at the newline. */
    method Split(p: nat, ghost t: string)
      requires Holds(line[..], 0, t) && 7 <= p < |t|
      modifies line
      ensures Holds(line[..], 7, t[7..p]) && Holds(line[..], p + 1, t[p + 1..Find(t, p + 1, '\n')])
    {
      var p2 := StrChr(p + 1, '\n', t);
      HoldsEach(line[..], 0, t);
      ghost var end := Find(t, p + 1, '\n');
      line[p] := NUL;
      if p2 >= 0 { line[p2] := NUL; }
      assert line[..][7..p] == t[7..p] && line[..][p + 1..end] == t[p + 1..end];
      PartHasNoNul(t, 7, p);
      PartHasNoNul(t, p + 1, end);
    }

    /** One turn of the loop of conf_read_file. A line of nothing but # is left to what the buffer held before. */
    method ProcessLine(ghost t: string)
      requires line.Length == LINE_SIZE && Holds(line[..], 0, t)
      modifies this, line
      ensures t != "#" ==> symbols == Apply(old(symbols), ReadLine(old(symbols), t))
    {
      HoldsEach(line[..], 0, t);
      if line[0] == '#' {
        ProcessUnset(t);
      } else if line[0] == 'C' {
        ProcessSet(t);
      } else if line[0] != '\n' {
        warnings := warnings + 1;
      }
    }

    /** conf_read_file on a text that does not end in the middle of an empty comment. */
    method ReadAll(file: string)
      requires line.Length == LINE_SIZE && NUL !in file
      modifies this, line
      ensures file == "" || file[|file| - 1] != '#' ==> symbols == ReadFile(old(symbols), file)
    {
      var pos := 0;
      while pos < |file|
        invariant 0 <= pos <= |file|
        invariant file == "" || file[|file| - 1] != '#' ==>
          ReadFile(old(symbols), file) == ReadFile(symbols, file[pos..])
      {
        var next := FGets(file, pos);
        ghost var t := file[pos..next];
        ghost var rest := file[pos..];
        if t == "#" { LoneMarkEndsFile(rest); }
        assert t == rest[..LineLength(rest)] && file[next..] == rest[LineLength(rest)..];
        ProcessLine(t);
        pos := next;
      }
    }
  }

  lemma LoneMarkEndsFile(rest: string)
    requires rest != "" && rest[..LineLength(rest)] == "#"
    ensures rest == "#"
  {
    var nl := Find(rest, 0, '\n');
    assert nl < |rest| ==> nl != 0;
  }

  class Writer {
    var out: string

    constructor ()
      ensures out == ""
    {
      out := "";
    }

    /** strcspn(str + from, "\"\\"). */
    method StrCSpn(str: string, from: nat) returns (l: nat)
      requires from <= |str|
      ensures from + l <= |str| && forall i :: from <= i < from + l ==> !Special(str[i])
      ensures from + l < |str| ==> Special(str[from + l])
    {
      l := 0;
      while from + l < |str| && !Special(str[from + l])
        invariant from + l <= |str| && forall i :: from <= i < from + l ==> !Special(str[i])
      {
        l := l + 1;
      }
    }

    method PutSpecials(str: string, from: nat) returns (at: nat)
      requires from <= |str| && (from < |str| ==> Special(str[from]))
      modifies this
      ensures from <= at <= |str| && (from < |str| ==> from < at)
      ensures out == old(out) + Escape(str[from..at])
    {
      at := from;
      while at < |str| && Special(str[at])
        invariant from <= at <= |str| && (at == from && from < |str| ==> Special(str[from]))
        invariant out == old(out) + Escape(str[from..at])
      {
        out := out + ['\\', str[at]];
        EscapeAppends(str[from..at], [str[at]]);
        assert str[from..at] + [str[at]] == str[from..at + 1];
        at := at + 1;
      }
    }

    /** One round: a stretch without special characters, then a stretch of special ones. */
    method PutStretches(str: string, from: nat) returns (at: nat)
      requires from <= |str|
      modifies this
      ensures from <= at <= |str| && (from < |str| ==> from < at)
      ensures out == old(out) + Escape(str[from..at])
    {
      var l := StrCSpn(str, from);
      if l > 0 {
        out := out + str[from..from + l];
      }
      PlainIsNotEscaped(str[from..from + l]);
      at := PutSpecials(str, from + l);
      EscapeAppends(str[from..from + l], str[from + l..at]);
      assert str[from..from + l] + str[from + l..at] == str[from..at];
    }

    /** The escaping loop of conf_write. */
    method PutEscaped(str: string)
      modifies this
      ensures out == old(out) + Escape(str)
    {
      hide Escape;
      var at := PutStretches(str, 0);
      while at < |str|
        invariant 0 <= at <= |str| && out == old(out) + Escape(str[0..at])
      {
        ghost var from := at;
        at := PutStretches(str, at);
        EscapeAppends(str[0..from], str[from..at]);
        assert str[0..from] + str[from..at] == str[0..at];
      }
      assert str[0..at] == str;
    }

    method PutEntry(name: string, kind: Kind, v: Value)
      requires Legal(kind, v)
      modifies this
      ensures out == old(out) + EntryLine(name, kind, v)
    {
      match v
      case OfTri(No) => out := out + ("# CONFIG_" + name + " is not set\n");
      case OfTri(Mod) => out := out + ("CONFIG_" + name + "=m\n");
      case OfTri(Yes) => out := out + ("CONFIG_" + name + "=y\n");
      case Text(s) =>
        out := out + ("CONFIG_" + name + "=");
        if kind == StringKind {
          out := out + "\"";
          PutEscaped(s);
          out := out + "\"\n";
        } else {
          out := out + (s + "\n");
        }
    }

    method PutItem(x: Item)
      requires x.Entry? ==> Legal(x.kind, x.value)
      modifies this
      ensures out == old(out) + ItemLine(x)
    {
      match x
      case Comment(text) => out := out + ("#" + text + "\n");
      case Entry(name, kind, value) => PutEntry(name, kind, value);
    }

    /** The lines of conf_write, in the order of its walk over the menu. */
    method PutAll(items: seq<Item>)
      requires AllLegal(items)
      modifies this
      ensures out == old(out) + File(items)
    {
      hide ItemLine;
      for i := 0 to |items|
        invariant out + File(items[i..]) == old(out) + File(items)
      {
        label L:
        PutItem(items[i]);
        assert items[i..][0] == items[i] && items[i..][1..] == items[i + 1..];
        assert old@L(out) + File(items[i..]) == out + File(items[i + 1..]);
      }
      assert items[|items|..] == [];
    }
  }
}
