/** The lines of a configuration file: how a value is written, and what a line read back means. */
module ConfText {

  import opened Options
  import opened Tristate

  const NUL: char := '\0'

  /** sizeof(line) in conf_read_file. */
  const LINE_SIZE: nat := 1024

  datatype Kind = BoolKind | TriKind | StringKind | IntKind | HexKind

  datatype Value = OfTri(tri: Tri) | Text(text: string)

  datatype Symbol = Symbol(kind: Kind, user: Value, isNew: bool)

  type Table = map<string, Symbol>

  /** What one line asks for. */
  datatype Assignment = Skip | Assign(name: string, value: Value)

  function Apply(table: Table, a: Assignment): Table {
    if a.Assign? && a.name in table then table[a.name := table[a.name].(user := a.value, isNew := false)] else table
  }

  // ----- the values a symbol may hold -----

  predicate IsDigit(c: char) { '0' <= c <= '9' }

  predicate IsHexDigit(c: char) { IsDigit(c) || 'a' <= c <= 'f' || 'A' <= c <= 'F' }

  predicate HasHexMark(s: string) { |s| >= 2 && s[0] == '0' && (s[1] == 'x' || s[1] == 'X') }

  function Unsigned(s: string): string {
    if |s| > 0 && s[0] == '-' then s[1..] else s
  }

  function WithoutHexMark(s: string): string {
    if HasHexMark(s) then s[2..] else s
  }

  predicate AllDigits(s: string) { forall i :: 0 <= i < |s| ==> IsDigit(s[i]) }

  predicate AllHexDigits(s: string) { forall i :: 0 <= i < |s| ==> IsHexDigit(s[i]) }

  predicate ValidInt(s: string) {
    var t := Unsigned(s);
    t != "" && (t[0] == '0' ==> |t| == 1) && AllDigits(t)
  }

  predicate ValidHex(s: string) {
    WithoutHexMark(s) != "" && AllHexDigits(WithoutHexMark(s))
  }

  /** No NUL and no newline. */
  predicate OneLine(s: string) {
    NUL !in s && '\n' !in s
  }

  predicate Legal(kind: Kind, v: Value) {
    match kind
    case BoolKind => v.OfTri? && v.tri != Mod
    case TriKind => v.OfTri?
    case StringKind => v.Text? && OneLine(v.text)
    case IntKind => v.Text? && ValidInt(v.text)
    case HexKind => v.Text? && ValidHex(v.text)
  }

  predicate LegalName(name: string) {
    OneLine(name) && ' ' !in name && '=' !in name
  }

  lemma NumbersAreOneLine(kind: Kind, s: string)
    requires (kind == IntKind && ValidInt(s)) || (kind == HexKind && ValidHex(s))
    ensures OneLine(s)
  {
    if kind == IntKind {
      var t := Unsigned(s);
      forall i | 0 <= i < |s| ensures s[i] != NUL && s[i] != '\n' {
        if s[0] != '-' || i > 0 {
          var j := if s[0] == '-' then i - 1 else i;
          assert s[i] == t[j] && IsDigit(t[j]);
        }
      }
    } else {
      var t := WithoutHexMark(s);
      forall i | 0 <= i < |s| ensures s[i] != NUL && s[i] != '\n' {
        if !HasHexMark(s) || i >= 2 {
          var j := if HasHexMark(s) then i - 2 else i;
          assert s[i] == t[j] && IsHexDigit(t[j]);
        }
      }
    }
  }

  // ----- escaping -----

  predicate Special(c: char) { c == '"' || c == '\\' }

  function Escape(s: string): string {
    if s == "" then ""
    else (if Special(s[0]) then ['\\', s[0]] else [s[0]]) + Escape(s[1..])
  }

  function Prepend(d: string, r: Option<string>): Option<string> {
    if r.None? then None else Some(d + r.value)
  }

  /** The text before the first quote that no backslash protects, without the protecting backslashes. */
  function Unescape(s: string): Option<string> {
    if s == "" then None
    else if s[0] == '"' then Some("")
    else if s[0] != '\\' then Prepend([s[0]], Unescape(s[1..]))
    else if |s| == 1 then None
    else Prepend([s[1]], Unescape(s[2..]))
  }

  lemma {:induction false} UnescapeOfEscape(s: string, rest: string)
    ensures Unescape(Escape(s) + "\"" + rest) == Some(s)
  {
    if s != "" {
      var t := Escape(s[1..]) + "\"" + rest;
      UnescapeOfEscape(s[1..], rest);
      if Special(s[0]) {
        assert Escape(s) + "\"" + rest == ['\\', s[0]] + t;
        assert (['\\', s[0]] + t)[2..] == t;
      } else {
        assert Escape(s) + "\"" + rest == [s[0]] + t;
        assert ([s[0]] + t)[1..] == t;
      }
      assert [s[0]] + s[1..] == s;
    } else {
      assert Escape(s) + "\"" + rest == "\"" + rest;
    }
  }

  lemma {:induction false} EscapeKeepsOneLine(s: string)
    requires OneLine(s)
    ensures OneLine(Escape(s))
  {
    if s != "" {
      EscapeKeepsOneLine(s[1..]);
    }
  }

  lemma {:induction false} EscapeAppends(a: string, b: string)
    ensures Escape(a + b) == Escape(a) + Escape(b)
  {
    if a == "" {
      assert a + b == b;
    } else {
      assert (a + b)[1..] == a[1..] + b;
      EscapeAppends(a[1..], b);
    }
  }

  lemma {:induction false} PlainIsNotEscaped(s: string)
    requires forall i :: 0 <= i < |s| ==> !Special(s[i])
    ensures Escape(s) == s
  {
    if s != "" {
      PlainIsNotEscaped(s[1..]);
    }
  }

  /** Text without special characters is passed over unchanged. */
  lemma {:induction false} UnescapeSkips(s: string, k: nat)
    requires k <= |s| && forall i :: 0 <= i < k ==> !Special(s[i])
    ensures Unescape(s) == Prepend(s[..k], Unescape(s[k..]))
  {
    if k == 0 {
      assert s[0..] == s && s[..0] == "";
      if Unescape(s).Some? { assert "" + Unescape(s).value == Unescape(s).value; }
    } else {
      UnescapeSkips(s[1..], k - 1);
      assert s[1..][k - 1..] == s[k..];
      if Unescape(s[k..]).Some? {
        var rest := Unescape(s[k..]).value;
        assert [s[0]] + (s[1..][..k - 1] + rest) == s[..k] + rest;
      }
    }
  }

  // ----- lines -----

  function EntryLine(name: string, kind: Kind, v: Value): string
    requires Legal(kind, v)
  {
    match v
    case OfTri(No) => "# CONFIG_" + name + " is not set\n"
    case OfTri(Mod) => "CONFIG_" + name + "=m\n"
    case OfTri(Yes) => "CONFIG_" + name + "=y\n"
    case Text(s) => "CONFIG_" + name + "=" + (if kind == StringKind then "\"" + Escape(s) + "\"" else s) + "\n"
  }

  /** The first place of c at or after i, or the length of t. */
  function Find(t: string, i: nat, c: char): (r: nat)
    requires i <= |t|
    ensures i <= r <= |t| && c !in t[i..r]
    ensures r < |t| ==> t[r] == c
    decreases |t| - i
  {
    if i == |t| || t[i] == c then i
    else
      var r := Find(t, i + 1, c);
      assert t[i..r] == [t[i]] + t[i + 1..r];
      r
  }

  lemma {:induction false} FindIs(t: string, i: nat, c: char, r: nat)
    requires i <= r < |t| && c !in t[i..r] && t[r] == c
    ensures Find(t, i, c) == r
    decreases r - i
  {
    if i < r {
      assert t[i] == t[i..r][0] && t[i + 1..r] == t[i..r][1..];
      FindIs(t, i + 1, c, r);
    }
  }

  lemma {:induction false} FindBeyond(t: string, i: nat, c: char, n: nat)
    requires i <= n <= |t| && c !in t[i..n]
    ensures Find(t, i, c) >= n
    decreases n - i
  {
    if i < n {
      assert t[i] == t[i..n][0] && t[i + 1..n] == t[i..n][1..];
      FindBeyond(t, i + 1, c, n);
    }
  }

  lemma {:induction false} FindNone(t: string, i: nat, c: char)
    requires i <= |t| && c !in t[i..]
    ensures Find(t, i, c) == |t|
    decreases |t| - i
  {
    if i < |t| {
      assert t[i] == t[i..][0] && t[i + 1..] == t[i..][1..];
      FindNone(t, i + 1, c);
    }
  }

  /** The text after the = sign, for a symbol of the given kind; only the first letter of a
      tristate value is looked at. */
  function ReadValue(kind: Kind, v: string): Option<Value> {
    if kind == TriKind && "m" <= v then Some(OfTri(Mod))
    else if kind == BoolKind || kind == TriKind then
      if "y" <= v then Some(OfTri(Yes)) else if "n" <= v then Some(OfTri(No)) else None
    else if kind == StringKind then
      if "\"" <= v && Unescape(v[1..]).Some? then Some(Text(Unescape(v[1..]).value)) else None
    else if (if kind == IntKind then ValidInt(v) else ValidHex(v)) then Some(Text(v))
    else None
  }

  /** "CONFIG_" is followed by the name, the name by the mark that ends it. */
  function ReadLine(table: Table, t: string): (a: Assignment)
    ensures a.Assign? ==> a.name in table
  {
    if "#" <= t then ReadUnset(table, t)
    else if !("CONFIG_" <= t) then Skip
    else
      var p := Find(t, 7, '=');
      if p == |t| || t[7..p] !in table then Skip
      else
        var v := ReadValue(table[t[7..p]].kind, t[p + 1..Find(t, p + 1, '\n')]);
        if v.None? then Skip else Assign(t[7..p], v.value)
  }

  function ReadUnset(table: Table, t: string): (a: Assignment)
    ensures a.Assign? ==> a.name in table
  {
    if |t| < 9 || t[2..9] != "CONFIG_" then Skip
    else
      var p := Find(t, 9, ' ');
      if p == |t| || !("is not set" <= t[p + 1..]) || t[9..p] !in table then Skip
      else if table[t[9..p]].kind in {BoolKind, TriKind} then Assign(t[9..p], OfTri(No))
      else Skip
  }

  lemma UnsetLineReadsBack(table: Table, name: string)
    requires LegalName(name) && name in table && table[name].kind in {BoolKind, TriKind}
    ensures ReadLine(table, "# CONFIG_" + name + " is not set\n") == Assign(name, OfTri(No))
  {
    var t := "# CONFIG_" + name + " is not set\n";
    assert t[2..9] == "CONFIG_" && t[9..9 + |name|] == name;
    FindIs(t, 9, ' ', 9 + |name|);
    assert t[10 + |name|..] == "is not set\n";
    assert "is not set\n"[..10] == "is not set";
  }

  lemma SetLineReadsBack(table: Table, name: string, text: string)
    requires LegalName(name) && name in table && OneLine(text)
    ensures var v := ReadValue(table[name].kind, text);
      ReadLine(table, "CONFIG_" + name + "=" + text + "\n") == if v.None? then Skip else Assign(name, v.value)
  {
    var t := "CONFIG_" + name + "=" + text + "\n";
    assert t[0] == 'C' && "CONFIG_" <= t && t[7..7 + |name|] == name;
    FindIs(t, 7, '=', 7 + |name|);
    assert t[8 + |name|..|t| - 1] == text;
    FindIs(t, 8 + |name|, '\n', |t| - 1);
  }

  lemma QuotedLineReadsBack(table: Table, name: string, s: string)
    requires LegalName(name) && name in table && table[name].kind == StringKind && OneLine(s)
    ensures ReadLine(table, "CONFIG_" + name + "=" + ("\"" + Escape(s) + "\"") + "\n") == Assign(name, Text(s))
  {
    hide ReadLine;
    var q := "\"" + Escape(s) + "\"";
    EscapeKeepsOneLine(s);
    SetLineReadsBack(table, name, q);
    UnescapeOfEscape(s, "");
    assert q[1..] == Escape(s) + "\"" + "";
  }

  /** Every value survives its own line format. */
  lemma LineReadsBack(table: Table, name: string, v: Value)
    requires LegalName(name) && name in table && Legal(table[name].kind, v)
    ensures ReadLine(table, EntryLine(name, table[name].kind, v)) == Assign(name, v)
  {
    hide ReadLine;
    match v
    case OfTri(No) => UnsetLineReadsBack(table, name);
    case OfTri(Mod) =>
      SetLineReadsBack(table, name, "m");
      assert "CONFIG_" + name + "=m\n" == "CONFIG_" + name + "=" + "m" + "\n";
    case OfTri(Yes) =>
      SetLineReadsBack(table, name, "y");
      assert "y"[0] != "m"[0];
      assert "CONFIG_" + name + "=y\n" == "CONFIG_" + name + "=" + "y" + "\n";
    case Text(s) =>
      if table[name].kind == StringKind {
        QuotedLineReadsBack(table, name, s);
      } else {
        NumbersAreOneLine(table[name].kind, s);
        SetLineReadsBack(table, name, s);
      }
  }

  // ----- files -----

  /** What one fgets takes: up to and including a newline, at most LINE_SIZE - 1 characters. */
  function LineLength(file: string): (n: nat)
    ensures n <= |file| && n < LINE_SIZE && (file != "" ==> n > 0)
  {
    var nl := Find(file, 0, '\n');
    var n := if nl < |file| then nl + 1 else nl;
    if n < LINE_SIZE then n else LINE_SIZE - 1
  }

  function ReadFile(table: Table, file: string): (r: Table)
    ensures r.Keys == table.Keys
    decreases |file|
  {
    if file == "" then table
    else ReadFile(Apply(table, ReadLine(table, file[..LineLength(file)])), file[LineLength(file)..])
  }

  /** What conf_write puts into the file: comment lines and the lines of symbols. */
  datatype Item = Comment(text: string) | Entry(name: string, kind: Kind, value: Value)

  function ItemLine(x: Item): string
    requires x.Entry? ==> Legal(x.kind, x.value)
  {
    match x
    case Comment(text) => "#" + text + "\n"
    case Entry(name, kind, value) => EntryLine(name, kind, value)
  }

  /** An item of a configuration with the given symbols whose line fits the line buffer. */
  predicate Writable(table: Table, x: Item) {
    match x
    case Comment(text) => OneLine(text) && |text| + 2 < LINE_SIZE && !(|text| >= 8 && text[1..8] == "CONFIG_")
    case Entry(name, kind, value) =>
      LegalName(name) && name in table && table[name].kind == kind && Legal(kind, value)
      && |EntryLine(name, kind, value)| < LINE_SIZE
  }

  predicate AllLegal(items: seq<Item>) {
    forall i :: 0 <= i < |items| && items[i].Entry? ==> Legal(items[i].kind, items[i].value)
  }

  predicate AllWritable(table: Table, items: seq<Item>)
    ensures AllWritable(table, items) ==> AllLegal(items)
  {
    forall i :: 0 <= i < |items| ==> Writable(table, items[i])
  }

  function File(items: seq<Item>): string
    requires AllLegal(items)
  {
    if items == [] then "" else ItemLine(items[0]) + File(items[1..])
  }

  function Restore(table: Table, items: seq<Item>): (r: Table)
    ensures r.Keys == table.Keys
  {
    if items == [] then table
    else Restore(Apply(table, if items[0].Comment? then Skip else Assign(items[0].name, items[0].value)), items[1..])
  }

  lemma ItemReadsBack(table: Table, x: Item)
    requires Writable(table, x)
    ensures ReadLine(table, ItemLine(x)) == if x.Comment? then Skip else Assign(x.name, x.value)
  {
    match x
    case Entry(name, kind, value) => LineReadsBack(table, name, value);
    case Comment(text) =>
      var t := ItemLine(x);
      if |t| >= 9 {
        assert |text| >= 8 ==> t[2..9] == text[1..8];
        assert |text| == 7 ==> t[2..9][6] == '\n';
      }
  }

  lemma ItemIsOneLine(table: Table, x: Item, rest: string)
    requires Writable(table, x)
    ensures LineLength(ItemLine(x) + rest) == |ItemLine(x)|
  {
    var t := ItemLine(x);
    ItemEnds(table, x);
    FindIs(t + rest, 0, '\n', |t| - 1);
  }

  /** The line of an item without its newline. */
  function ItemText(x: Item): (r: string)
    requires x.Entry? ==> Legal(x.kind, x.value)
    ensures ItemLine(x) == r + "\n"
  {
    match x
    case Comment(text) => "#" + text
    case Entry(name, kind, OfTri(No)) => "# CONFIG_" + name + " is not set"
    case Entry(name, kind, OfTri(Mod)) => "CONFIG_" + name + "=m"
    case Entry(name, kind, OfTri(Yes)) => "CONFIG_" + name + "=y"
    case Entry(name, kind, Text(s)) =>
      "CONFIG_" + name + "=" + (if kind == StringKind then "\"" + Escape(s) + "\"" else s)
  }

  lemma OneLineJoins(a: string, b: string, c: string)
    requires OneLine(a) && OneLine(b) && OneLine(c)
    ensures OneLine(a + b + c)
  {
  }

  lemma ItemTextIsOneLine(table: Table, x: Item)
    requires Writable(table, x)
    ensures OneLine(ItemText(x))
  {
    hide Escape;
    match x
    case Comment(text) => OneLineJoins("#", text, "");
    case Entry(name, kind, OfTri(No)) => OneLineJoins("# CONFIG_", name, " is not set");
    case Entry(name, kind, OfTri(Mod)) => OneLineJoins("CONFIG_", name, "=m");
    case Entry(name, kind, OfTri(Yes)) => OneLineJoins("CONFIG_", name, "=y");
    case Entry(name, kind, Text(s)) =>
      OneLineJoins("CONFIG_", name, "=");
      if kind == StringKind {
        EscapeKeepsOneLine(s);
        OneLineJoins("\"", Escape(s), "\"");
        OneLineJoins("CONFIG_" + name + "=", "\"" + Escape(s) + "\"", "");
      } else {
        NumbersAreOneLine(kind, s);
        OneLineJoins("CONFIG_" + name + "=", s, "");
      }
  }

  lemma ItemEnds(table: Table, x: Item)
    requires Writable(table, x)
    ensures var t := ItemLine(x); t != "" && t[|t| - 1] == '\n' && OneLine(t[..|t| - 1])
  {
    ItemTextIsOneLine(table, x);
    hide *;
    var t := ItemLine(x);
    assert t[..|t| - 1] == ItemText(x);
  }

  /** Reading a written configuration back assigns exactly what was written, in that order. */
  lemma {:induction false} FileReadsBack(table: Table, items: seq<Item>)
    requires AllWritable(table, items)
    ensures ReadFile(table, File(items)) == Restore(table, items)
    decreases |items|
  {
    if items != [] {
      var x, rest := items[0], File(items[1..]);
      ItemReadsBack(table, x);
      ItemIsOneLine(table, x, rest);
      var f := File(items);
      assert f == ItemLine(x) + rest;
      assert f[..|ItemLine(x)|] == ItemLine(x) && f[|ItemLine(x)|..] == rest;
      var next := Apply(table, ReadLine(table, ItemLine(x)));
      forall i | 0 <= i < |items| - 1 ensures Writable(next, items[1..][i]) {
        assert Writable(table, items[i + 1]);
      }
      FileReadsBack(next, items[1..]);
    }
  }

  /** The last line of a symbol decides: it holds the value it was written with and is no longer new. */
  lemma {:induction false} RestoreGives(table: Table, items: seq<Item>, k: nat)
    requires k < |items| && items[k].Entry? && items[k].name in table
    requires forall j :: k < j < |items| && items[j].Entry? ==> items[j].name != items[k].name
    ensures Restore(table, items)[items[k].name] == Symbol(table[items[k].name].kind, items[k].value, false)
    decreases |items|
  {
    var next := Apply(table, if items[0].Comment? then Skip else Assign(items[0].name, items[0].value));
    if k == 0 {
      RestoreKeeps(next, items[1..], items[0].name);
    } else {
      RestoreGives(next, items[1..], k - 1);
    }
  }

  /** A symbol without a line keeps its state. */
  lemma {:induction false} RestoreKeeps(table: Table, items: seq<Item>, name: string)
    requires name in table
    requires forall j :: 0 <= j < |items| && items[j].Entry? ==> items[j].name != name
    ensures Restore(table, items)[name] == table[name]
    decreases |items|
  {
    if items != [] {
      var next := Apply(table, if items[0].Comment? then Skip else Assign(items[0].name, items[0].value));
      RestoreKeeps(next, items[1..], name);
    }
  }
}
